/** The recombining binomial lattice. Node (i, j) is the state after i moves of
    which j were down moves; its price and its path probability have closed forms,
    so every node is computed on its own, from i and j alone. */
module Lattice {
  import opened Products
  import opened Powers
  import opened Sums
  import opened Binomial

  /** The number of steps: freq * maturity converted to an unsigned integer, which
      truncates toward zero. A product in (-1, 0) truncates to 0; for a
      non-negative product the truncation is its floor. */
  function StepCount(freq: real, maturity: real): (n: nat)
    requires freq * maturity > -1.0
    ensures freq * maturity >= 0.0 ==> n as real <= freq * maturity < n as real + 1.0
    ensures freq * maturity < 0.0 ==> n == 0
  {
    if freq * maturity < 0.0 then 0 else (freq * maturity).Floor
  }

  /** Fractional up move implied by the next-step up price. */
  function UpChange(s0: real, s1Up: real): real
    requires s0 != 0.0
  {
    (s1Up - s0) / s0
  }

  /** Fractional down move implied by the next-step down price. */
  function DownChange(s0: real, s1Down: real): real
    requires s0 != 0.0
  {
    (s0 - s1Down) / s0
  }

  /** Price at node (i, j): S0 * (1 + up)^(i-j) * (1 - down)^j. */
  function NodePrice(s0: real, up: real, down: real, i: nat, j: nat): real
    requires j <= i
  {
    s0 * Pow(1.0 + up, i - j) * Pow(1.0 - down, j)
  }

  /** Probability of node (i, j): C(i, j) * p^(i-j) * (1 - p)^j, term j of the
      expansion of (p + (1 - p))^i. */
  function NodeProb(probUp: real, i: nat, j: nat): real
    requires j <= i
  {
    Term(probUp, 1.0 - probUp, i, j)
  }

  /** The prices of level i, indexed by the number of down moves. */
  function PriceLevel(s0: real, up: real, down: real, i: nat): seq<real>
  {
    seq(i + 1, j requires 0 <= j <= i => NodePrice(s0, up, down, i, j))
  }

  /** The probabilities of level i, indexed by the number of down moves. */
  function ProbLevel(probUp: real, i: nat): seq<real>
  {
    Expansion(probUp, 1.0 - probUp, i)
  }

  /** The root is the initial price, reached with certainty. */
  lemma RootNode(s0: real, up: real, down: real, probUp: real)
    ensures NodePrice(s0, up, down, 0, 0) == s0
    ensures NodeProb(probUp, 0, 0) == 1.0
  {
  }

  /** Because the moves are derived from the next-step prices, level 1 reproduces
      them: node (1, 0) is S1Up and node (1, 1) is S1Down. */
  lemma LevelOnePrices(s0: real, s1Up: real, s1Down: real)
    requires s0 != 0.0
    ensures NodePrice(s0, UpChange(s0, s1Up), DownChange(s0, s1Down), 1, 0) == s1Up
    ensures NodePrice(s0, UpChange(s0, s1Up), DownChange(s0, s1Down), 1, 1) == s1Down
  {
    var up, down := UpChange(s0, s1Up), DownChange(s0, s1Down);
    assert Pow(1.0 + up, 1) == 1.0 + up;
    assert Pow(1.0 - down, 1) == 1.0 - down;
    UndoChange(s0, s1Up);
    UndoChange(s0, s1Down);
  }

  /** Scaling S0 by the derived move gives back the next-step price. */
  lemma UndoChange(s0: real, s1: real)
    requires s0 != 0.0
    ensures s0 * (1.0 + (s1 - s0) / s0) * 1.0 == s1
    ensures s0 * 1.0 * (1.0 - (s0 - s1) / s0) == s1
  {
    var r := (s1 - s0) / s0;
    assert r * s0 == s1 - s0;
    assert (s0 - s1) / s0 == -r;
  }

  /** With 0 <= p <= 1 every node probability is non-negative. */
  lemma NodeProbNonNegative(probUp: real, i: nat, j: nat)
    requires 0.0 <= probUp <= 1.0
    requires j <= i
    ensures NodeProb(probUp, i, j) >= 0.0
  {
    PowNonNegative(probUp, i - j);
    PowNonNegative(1.0 - probUp, j);
    ProductNonNegative3(Choose(i, j) as real, Pow(probUp, i - j), Pow(1.0 - probUp, j));
  }

  lemma ProductNonNegative3(a: real, b: real, c: real)
    requires a >= 0.0 && b >= 0.0 && c >= 0.0
    ensures a * b * c >= 0.0
  {
  }

  /** Every level's probabilities sum to exactly one, whatever p is: by the binomial
      theorem they sum to (p + (1 - p))^i. */
  lemma ProbLevelSumsToOne(probUp: real, i: nat)
    ensures Sum(ProbLevel(probUp, i)) == 1.0
  {
    BinomialTheorem(probUp, 1.0 - probUp, i);
    assert probUp + (1.0 - probUp) == 1.0;
    PowOne(i);
  }

  /** Along a level, one more down move never raises the price when the down
      factor does not exceed the up factor. */
  lemma PriceNonIncreasingInDowns(s0: real, up: real, down: real, i: nat, j: nat)
    requires s0 >= 0.0
    requires 0.0 <= 1.0 - down <= 1.0 + up
    requires j < i
    ensures NodePrice(s0, up, down, i, j + 1) <= NodePrice(s0, up, down, i, j)
  {
    var u, d := 1.0 + up, 1.0 - down;
    var a, b := Pow(u, i - j - 1), Pow(d, j);
    var lo, hi := NodePrice(s0, up, down, i, j + 1), NodePrice(s0, up, down, i, j);
    PowNonNegative(u, i - j - 1);
    PowNonNegative(d, j);
    assert Pow(u, i - j) == u * a;
    assert Pow(d, j + 1) == d * b;
    SwapFactor(s0, u, d, a, b, lo, hi);
  }

  lemma SwapFactor(s0: real, u: real, d: real, a: real, b: real, lo: real, hi: real)
    requires s0 >= 0.0 && a >= 0.0 && b >= 0.0 && 0.0 <= d <= u
    requires lo == s0 * a * (d * b) && hi == s0 * (u * a) * b
    ensures lo <= hi
  {
    var x := s0 * a * b;
    assert x >= 0.0;
    assert lo == d * x;
    assert hi == u * x;
  }

  /** The expected one-step growth factor p (1 + up) + (1 - p)(1 - down). */
  function Drift(probUp: real, up: real, down: real): real
  {
    probUp * (1.0 + up) + (1.0 - probUp) * (1.0 - down)
  }

  /** The expected terminal price: the sum over j of prob(n, j) * price(n, j) is
      S0 * Drift^n, the binomial theorem again with the growth factors folded into
      the probabilities. */
  lemma ExpectedLevelPrice(s0: real, up: real, down: real, probUp: real, n: nat)
    ensures WeightedSum(PriceLevel(s0, up, down, n), ProbLevel(probUp, n)) == s0 * Pow(Drift(probUp, up, down), n)
  {
    var u, d, q := 1.0 + up, 1.0 - down, 1.0 - probUp;
    var a, b := probUp * u, q * d;
    var prices, probs, e := PriceLevel(s0, up, down, n), ProbLevel(probUp, n), Expansion(a, b, n);
    forall j {:trigger e[j]} | 0 <= j < |e|
      ensures probs[j] * prices[j] == s0 * e[j]
    {
      WeightedNode(s0, up, down, probUp, u, d, q, a, b, n, j, prices, probs, e);
    }
    WeightedSumScaled(prices, probs, e, s0);
    BinomialTheorem(a, b, n);
    DriftFactors(probUp, up, down, u, d, q, a, b);
  }

  lemma DriftFactors(probUp: real, up: real, down: real, u: real, d: real, q: real, a: real, b: real)
    requires u == 1.0 + up && d == 1.0 - down && q == 1.0 - probUp
    requires a == probUp * u && b == q * d
    ensures Drift(probUp, up, down) == a + b
  {
  }

  /** One node of ExpectedLevelPrice, with the factors named: u = 1 + up,
      d = 1 - down, q = 1 - p, a = p u, b = q d. */
  lemma WeightedNode(s0: real, up: real, down: real, probUp: real,
                     u: real, d: real, q: real, a: real, b: real, n: nat, j: nat,
                     prices: seq<real>, probs: seq<real>, e: seq<real>)
    requires u == 1.0 + up && d == 1.0 - down && q == 1.0 - probUp
    requires a == probUp * u && b == q * d
    requires prices == PriceLevel(s0, up, down, n) && probs == ProbLevel(probUp, n) && e == Expansion(a, b, n)
    requires j <= n
    ensures probs[j] * prices[j] == s0 * e[j]
  {
    assert probs[j] == NodeProb(probUp, n, j);
    assert prices[j] == NodePrice(s0, up, down, n, j);
    assert e[j] == Term(a, b, n, j);
    NodeWeighted(s0, up, down, probUp, u, d, q, a, b, n, j);
    assert Mul(probs[j], prices[j]) == Mul(s0, e[j]);
  }

  /** Probability times price at node (n, j) is S0 times term j of (a + b)^n. */
  lemma NodeWeighted(s0: real, up: real, down: real, probUp: real,
                     u: real, d: real, q: real, a: real, b: real, n: nat, j: nat)
    requires u == 1.0 + up && d == 1.0 - down && q == 1.0 - probUp
    requires a == probUp * u && b == q * d
    requires j <= n
    ensures Mul(NodeProb(probUp, n, j), NodePrice(s0, up, down, n, j)) == Mul(s0, Term(a, b, n, j))
  {
    PowProductNamed(probUp, u, a, n - j);
    PowProductNamed(q, d, b, j);
    assert NodeProb(probUp, n, j) == Mul3(Choose(n, j) as real, Pow(probUp, n - j), Pow(1.0 - probUp, j));
    assert NodePrice(s0, up, down, n, j) == Mul3(s0, Pow(1.0 + up, n - j), Pow(1.0 - down, j));
    assert Term(a, b, n, j) == Mul3(Choose(n, j) as real, Pow(a, n - j), Pow(b, j));
    FoldFactors(Choose(n, j) as real, Pow(probUp, n - j), Pow(q, j), Pow(u, n - j), Pow(d, j), Pow(a, n - j), Pow(b, j),
                s0, NodeProb(probUp, n, j), NodePrice(s0, up, down, n, j), Term(a, b, n, j));
  }

  /** The regrouping closing NodeWeighted: (c p^k q^l) (S0 u^k d^l) == S0 (c (pu)^k (qd)^l). */
  lemma FoldFactors(c: real, pp: real, qq: real, uu: real, dd: real, pu: real, qd: real, s0: real,
                    prob: real, price: real, e: real)
    requires pu == Mul(pp, uu) && qd == Mul(qq, dd)
    requires prob == Mul3(c, pp, qq) && price == Mul3(s0, uu, dd) && e == Mul3(c, pu, qd)
    ensures Mul(prob, price) == Mul(s0, e)
  {
  }
}
