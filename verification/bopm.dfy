/** The binomial option pricing model object: it derives the step count and the
    up and down moves from its parameters, fills the price and probability
    lattices level by level, and prices calls and puts from the terminal level. */
module Bopm {
  import opened Powers
  import opened Sums
  import opened Binomial
  import opened Lattice
  import opened Payoff

  /** std::vector::resize: keep the first n elements, pad with fill up to n. */
  function Resize<T>(s: seq<T>, n: nat, fill: T): (r: seq<T>)
    ensures |r| == n
    ensures forall i :: 0 <= i < n ==> r[i] == if i < |s| then s[i] else fill
  {
    if n <= |s| then s[..n] else s + seq(n - |s|, _ => fill)
  }

  class BOPM {
    const steps: nat        // number of steps
    const s0: real          // initial price
    const s1Up: real        // next-step up price
    const s1Down: real      // next-step down price
    const probUp: real      // probability of an up move
    const freq: real        // price changes per year
    const maturity: real    // life of the option in years
    const upChange: real    // relative up move
    const downChange: real  // relative down move

    var priceTree: seq<seq<real>>
    var probTree: seq<seq<real>>

    constructor (s0: real, s1Up: real, s1Down: real, probUp: real, freq: real, maturity: real)
      requires freq * maturity > -1.0
      requires s0 != 0.0
      ensures this.steps == StepCount(freq, maturity)
      ensures this.s0 == s0 && this.s1Up == s1Up && this.s1Down == s1Down && this.probUp == probUp
      ensures this.freq == freq && this.maturity == maturity
      ensures upChange == UpChange(s0, s1Up) && downChange == DownChange(s0, s1Down)
      ensures NodePrice(s0, upChange, downChange, 1, 0) == s1Up
      ensures NodePrice(s0, upChange, downChange, 1, 1) == s1Down
      ensures priceTree == [] && probTree == []
    {
      this.steps := StepCount(freq, maturity);
      this.s0, this.s1Up, this.s1Down, this.probUp := s0, s1Up, s1Down, probUp;
      this.freq, this.maturity := freq, maturity;
      upChange := (s1Up - s0) / s0;
      downChange := (s0 - s1Down) / s0;
      priceTree, probTree := [], [];
      LevelOnePrices(s0, s1Up, s1Down);
    }

    /** Both tables hold the whole lattice: steps + 1 levels, level i holding the
        closed-form prices and probabilities of its i + 1 nodes. */
    ghost predicate TreeBuilt()
      reads this
    {
      && |priceTree| == steps + 1
      && |probTree| == steps + 1
      && (forall i :: 0 <= i <= steps ==> priceTree[i] == PriceLevel(s0, upChange, downChange, i))
      && (forall i :: 0 <= i <= steps ==> probTree[i] == ProbLevel(probUp, i))
    }

    /** Fills the lattice in place and returns its last level. */
    method BuildTree() returns (finalPrices: seq<real>, finalProbs: seq<real>)
      modifies this
      ensures TreeBuilt()
      ensures forall i :: 0 <= i <= steps ==> |priceTree[i]| == i + 1 && |probTree[i]| == i + 1
      ensures forall i, j :: 0 <= j <= i <= steps ==>
        priceTree[i][j] == NodePrice(s0, upChange, downChange, i, j) && probTree[i][j] == NodeProb(probUp, i, j)
      ensures forall i :: 0 <= i <= steps ==> Sum(probTree[i]) == 1.0
      ensures 0.0 <= probUp <= 1.0 ==> forall i, j :: 0 <= j <= i <= steps ==> probTree[i][j] >= 0.0
      ensures finalPrices == priceTree[steps] && finalProbs == probTree[steps]
      ensures |finalPrices| == |finalProbs| == steps + 1
    {
      priceTree := Resize(priceTree, steps + 1, []);
      probTree := Resize(probTree, steps + 1, []);
      finalPrices, finalProbs := [], [];
      var i: nat := 0;
      while i <= steps
        invariant i <= steps + 1
        invariant |priceTree| == steps + 1 && |probTree| == steps + 1
        invariant forall k :: 0 <= k < i ==> priceTree[k] == PriceLevel(s0, upChange, downChange, k)
        invariant forall k :: 0 <= k < i ==> probTree[k] == ProbLevel(probUp, k)
        invariant i > steps ==> finalPrices == priceTree[steps] && finalProbs == probTree[steps]
      {
        FillLevel(i);
        if i == steps {
          finalPrices := priceTree[i];
          finalProbs := probTree[i];
        }
        i := i + 1;
      }
      RowsAreDistributions(probTree, probUp, steps);
      LevelsHoldNodes(priceTree, probTree, s0, upChange, downChange, probUp, steps);
    }

    /** One pass of the outer loop of the lattice build: level i is resized to
        i + 1 nodes and each node is set to its closed form; no other level moves. */
    method FillLevel(i: nat)
      requires i < |priceTree| && i < |probTree|
      modifies this
      ensures priceTree == old(priceTree)[i := PriceLevel(s0, upChange, downChange, i)]
      ensures probTree == old(probTree)[i := ProbLevel(probUp, i)]
    {
      var priceRow := Resize(priceTree[i], i + 1, 0.0);
      var probRow := Resize(probTree[i], i + 1, 0.0);
      var j: nat := 0;
      while j <= i
        invariant j <= i + 1
        invariant priceTree == old(priceTree) && probTree == old(probTree)
        invariant |priceRow| == i + 1 && |probRow| == i + 1
        invariant priceRow[..j] == PriceLevel(s0, upChange, downChange, i)[..j]
        invariant probRow[..j] == ProbLevel(probUp, i)[..j]
      {
        var price := s0 * Pow(1.0 + upChange, i - j) * Pow(1.0 - downChange, j);
        var coeff := BinomialCoeff(i, j);
        var prob := coeff * Pow(probUp, i - j) * Pow(1.0 - probUp, j);
        assert price == PriceLevel(s0, upChange, downChange, i)[j];
        assert prob == ProbLevel(probUp, i)[j];
        priceRow := priceRow[j := price];
        probRow := probRow[j := prob];
        j := j + 1;
      }
      assert priceRow == priceRow[..i + 1];
      assert probRow == probRow[..i + 1];
      assert PriceLevel(s0, upChange, downChange, i)[..i + 1] == PriceLevel(s0, upChange, downChange, i);
      assert ProbLevel(probUp, i)[..i + 1] == ProbLevel(probUp, i);
      priceTree := priceTree[i := priceRow];
      probTree := probTree[i := probRow];
    }

    /** Discounted expected payoff of a European call on the terminal level. The loop
        runs over the prices, so only that many leading probabilities are read. */
    method CallPrice(finalPrices: seq<real>, finalProbs: seq<real>, strike: real, r: real, freq: real)
      returns (price: real)
      requires |finalProbs| >= |finalPrices| >= 1
      requires freq != 0.0 && Discount(r, freq, |finalPrices| - 1) != 0.0
      ensures price == OptionValue(Call, finalPrices, finalProbs[..|finalPrices|], strike, r, freq)
      ensures (forall i :: 0 <= i < |finalProbs| ==> finalProbs[i] >= 0.0) && 1.0 + r / freq > 0.0 ==> price >= 0.0
      ensures |finalPrices| == 1 ==> price == Max(finalPrices[0] - strike, 0.0) * finalProbs[0]
    {
      var sum := 0.0;
      var i := 0;
      while i < |finalPrices|
        invariant 0 <= i <= |finalPrices|
        invariant sum == WeightedSumTo(Payoffs(Call, finalPrices, strike), finalProbs[..|finalPrices|], i)
      {
        var payoff := Max(finalPrices[i] - strike, 0.0);
        sum := sum + payoff * finalProbs[i];
        i := i + 1;
      }
      var discount := Pow(1.0 + r / freq, |finalPrices| - 1);
      price := sum / discount;
      if (forall i :: 0 <= i < |finalProbs| ==> finalProbs[i] >= 0.0) && 1.0 + r / freq > 0.0 {
        OptionValueNonNegative(Call, finalPrices, finalProbs[..|finalPrices|], strike, r, freq);
      }
      if |finalPrices| == 1 {
        SingleNodeUndiscounted(Call, finalPrices, finalProbs[..1], strike, r, freq);
      }
    }

    /** Discounted expected payoff of a European put on the terminal level, reading
        the probabilities the same way. */
    method PutPrice(finalPrices: seq<real>, finalProbs: seq<real>, strike: real, r: real, freq: real)
      returns (price: real)
      requires |finalProbs| >= |finalPrices| >= 1
      requires freq != 0.0 && Discount(r, freq, |finalPrices| - 1) != 0.0
      ensures price == OptionValue(Put, finalPrices, finalProbs[..|finalPrices|], strike, r, freq)
      ensures (forall i :: 0 <= i < |finalProbs| ==> finalProbs[i] >= 0.0) && 1.0 + r / freq > 0.0 ==> price >= 0.0
      ensures |finalPrices| == 1 ==> price == Max(strike - finalPrices[0], 0.0) * finalProbs[0]
    {
      var sum := 0.0;
      var i := 0;
      while i < |finalPrices|
        invariant 0 <= i <= |finalPrices|
        invariant sum == WeightedSumTo(Payoffs(Put, finalPrices, strike), finalProbs[..|finalPrices|], i)
      {
        var payoff := Max(strike - finalPrices[i], 0.0);
        sum := sum + payoff * finalProbs[i];
        i := i + 1;
      }
      var discount := Pow(1.0 + r / freq, |finalPrices| - 1);
      price := sum / discount;
      if (forall i :: 0 <= i < |finalProbs| ==> finalProbs[i] >= 0.0) && 1.0 + r / freq > 0.0 {
        OptionValueNonNegative(Put, finalPrices, finalProbs[..|finalPrices|], strike, r, freq);
      }
      if |finalPrices| == 1 {
        SingleNodeUndiscounted(Put, finalPrices, finalProbs[..1], strike, r, freq);
      }
    }
  }

  /** Tables whose rows are the lattice levels hold the closed form at every node. */
  lemma LevelsHoldNodes(priceTree: seq<seq<real>>, probTree: seq<seq<real>>,
                        s0: real, up: real, down: real, probUp: real, steps: nat)
    requires |priceTree| == |probTree| == steps + 1
    requires forall i :: 0 <= i <= steps ==> priceTree[i] == PriceLevel(s0, up, down, i)
    requires forall i :: 0 <= i <= steps ==> probTree[i] == ProbLevel(probUp, i)
    ensures forall i :: 0 <= i <= steps ==> |priceTree[i]| == i + 1 && |probTree[i]| == i + 1
    ensures forall i, j :: 0 <= j <= i <= steps ==>
      priceTree[i][j] == NodePrice(s0, up, down, i, j) && probTree[i][j] == NodeProb(probUp, i, j)
  {
  }

  /** Every row of a probability table holding the lattice levels sums to one, and
      has no negative entry when p is a probability. */
  lemma RowsAreDistributions(probTree: seq<seq<real>>, probUp: real, steps: nat)
    requires |probTree| == steps + 1
    requires forall i :: 0 <= i <= steps ==> probTree[i] == ProbLevel(probUp, i)
    ensures forall i :: 0 <= i <= steps ==> |probTree[i]| == i + 1 && Sum(probTree[i]) == 1.0
    ensures 0.0 <= probUp <= 1.0 ==> forall i, j :: 0 <= j <= i <= steps ==> probTree[i][j] >= 0.0
  {
    forall i | 0 <= i <= steps
      ensures |probTree[i]| == i + 1 && Sum(probTree[i]) == 1.0
      ensures 0.0 <= probUp <= 1.0 ==> forall j :: 0 <= j <= i ==> probTree[i][j] >= 0.0
    {
      LevelIsDistribution(probUp, i);
    }
  }

  /** The probabilities of level n sum to one, and are non-negative when p is a probability. */
  lemma LevelIsDistribution(probUp: real, n: nat)
    ensures Sum(ProbLevel(probUp, n)) == 1.0
    ensures 0.0 <= probUp <= 1.0 ==> forall j :: 0 <= j < |ProbLevel(probUp, n)| ==> ProbLevel(probUp, n)[j] >= 0.0
  {
    ProbLevelSumsToOne(probUp, n);
    if 0.0 <= probUp <= 1.0 {
      forall j | 0 <= j <= n
        ensures ProbLevel(probUp, n)[j] >= 0.0
      {
        NodeProbNonNegative(probUp, n, j);
      }
    }
  }

  /** Put-call parity for a whole pricing run: when p is the risk-neutral
      probability (p S1Up + (1 - p) S1Down = S0 (1 + rate / freq)), call minus put
      on the level-n distribution is S0 - strike / (1 + rate / freq)^n. */
  lemma RiskNeutralPutCallParity(s0: real, s1Up: real, s1Down: real, probUp: real,
                                 strike: real, rate: real, freq: real, n: nat)
    requires s0 != 0.0 && freq != 0.0
    requires Discount(rate, freq, n) != 0.0
    requires probUp * s1Up + (1.0 - probUp) * s1Down == s0 * (1.0 + rate / freq)
    ensures var prices := PriceLevel(s0, UpChange(s0, s1Up), DownChange(s0, s1Down), n);
            var probs := ProbLevel(probUp, n);
            OptionValue(Call, prices, probs, strike, rate, freq) - OptionValue(Put, prices, probs, strike, rate, freq)
              == s0 - strike / Discount(rate, freq, n)
  {
    var up, down := UpChange(s0, s1Up), DownChange(s0, s1Down);
    var prices, probs := PriceLevel(s0, up, down, n), ProbLevel(probUp, n);
    var g := 1.0 + rate / freq;
    RiskNeutralDrift(s0, s1Up, s1Down, probUp, g, up, down);
    ExpectedLevelPrice(s0, up, down, probUp, n);
    ProbLevelSumsToOne(probUp, n);
    PutCallParityUnitMass(prices, probs, strike, rate, freq);
    var disc := Discount(rate, freq, n);
    SplitQuotient(s0, strike, disc, WeightedSum(prices, probs));
  }

  /** With the risk-neutral probability the expected one-step growth is the
      one-period compounding factor. */
  lemma RiskNeutralDrift(s0: real, s1Up: real, s1Down: real, probUp: real, g: real, up: real, down: real)
    requires s0 != 0.0
    requires up == (s1Up - s0) / s0 && down == (s0 - s1Down) / s0
    requires probUp * s1Up + (1.0 - probUp) * s1Down == s0 * g
    ensures Drift(probUp, up, down) == g
  {
    var u, d := 1.0 + up, 1.0 - down;
    assert s0 * u == s1Up;
    assert s0 * d == s1Down;
    var drift := probUp * u + (1.0 - probUp) * d;
    assert s0 * drift == probUp * (s0 * u) + (1.0 - probUp) * (s0 * d);
    assert s0 * drift == s0 * g;
  }

  lemma SplitQuotient(s0: real, strike: real, disc: real, mean: real)
    requires disc != 0.0 && mean == s0 * disc
    ensures (mean - strike) / disc == s0 - strike / disc
  {
  }
}
