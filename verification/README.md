# Binomial option pricing model (BOPM), verified in Dafny

This project models the pricer in `BOPM.cpp`, a binomial lattice for European
options, and proves its properties. Given the initial price S0 and the next-step
up and down prices S1Up and S1Down, the pricer derives:

- the relative moves UpChange = (S1Up - S0) / S0 and DownChange = (S0 - S1Down) / S0;
- the step count, freq * maturity truncated toward zero to an unsigned integer.

It then fills a triangular price table and a triangular probability table, one
row per step. Node (i, j) is the state after i moves, j of them down. The last
row is returned, and a call or put is priced as the probability-weighted
payoff over that row, discounted by (1 + r / freq)^(nodes - 1).

`double` is modelled as exact `real` and `std::pow` with a whole exponent as a
recursive `Pow(x, n: nat)`, so every identity holds exactly.

Modules, one per file:

- `Products` (`products.dfy`): `Mul`/`Mul3`, products named as functions so that
  arithmetic facts carry over between equal factors.
- `Powers` (`powers.dfy`): `Pow` and its sign and product laws.
- `Sums` (`sums.dfy`): left-to-right sums and weighted sums, and Pascal-row sums.
- `Binomial` (`binomial.dfy`):
  - `Choose` by Pascal's rule;
  - `binomialCoeff` as the method `BinomialCoeff`;
  - the factorial and absorption identities;
  - the binomial theorem.
- `Lattice` (`lattice.dfy`): the step count, the moves, the closed-form node
  price and probability, whole levels, and their properties.
- `Payoff` (`payoff.dfy`): call and put payoffs, the discount, the option value
  as a function, non-negativity and put–call parity.
- `Bopm` (`bopm.dfy`): the class `BOPM`.
  - It has constant parameter fields and the two tables as `seq<seq<real>>`
    fields reassigned in place.
  - Its methods are the constructor, `BuildTree` (with its inner loop in
    `FillLevel`), `CallPrice` and `PutPrice`, each proved against the functions
    above.

## Model

| member | source | states |
|---|---|---|
| Binomial.BinomialCoeff | BOPM.cpp:10-17 | for r <= N the multiplicative loop returns exactly C(N, r); the invariant is that after step i the accumulator is C(N - r + i, i) |
| Binomial.ChooseFactorial | BOPM.cpp:10-17 | the coefficient the loop computes is N! / (r! (N - r)!): C(n, k) k! (n - k)! == n! |
| Binomial.Absorption | BOPM.cpp:13-14 | one loop step is exact: i * C(m, i) == m * C(m - 1, i - 1), so multiplying by N - r + i and then dividing by i stays integral |
| Binomial.BinomialTheorem | BOPM.cpp:76 | the terms C(n, j) p^(n-j) q^j of a level add up to (p + q)^n |
| Lattice.StepCount | BOPM.cpp:37 | the step count is freq * maturity truncated toward zero: n <= freq * maturity < n + 1 for a non-negative product, and n = 0 for a product in (-1, 0) |
| Lattice.RootNode | BOPM.cpp:75-76 | node (0, 0) has price S0 and probability 1 |
| Lattice.LevelOnePrices | BOPM.cpp:37-39 | with the moves derived from S1Up and S1Down, node (1, 0) is priced S1Up and node (1, 1) is priced S1Down |
| Lattice.NodeProbNonNegative | BOPM.cpp:76 | with 0 <= probUp <= 1 every node probability is >= 0 |
| Lattice.ProbLevelSumsToOne | BOPM.cpp:76 | the probabilities of every level sum to exactly 1 |
| Lattice.PriceNonIncreasingInDowns | BOPM.cpp:75 | with S0 >= 0 and 0 <= 1 - DownChange <= 1 + UpChange, one more down move never raises a node's price |
| Lattice.ExpectedLevelPrice | BOPM.cpp:75-76 | the probability-weighted price of level n is S0 * (p (1 + UpChange) + (1 - p)(1 - DownChange))^n |
| Payoff.PayoffNonNegative | BOPM.cpp:126 | max(price - strike, 0) and max(strike - price, 0) are never negative |
| Payoff.OptionValueNonNegative | BOPM.cpp:112-118 | with non-negative probabilities and a positive base 1 + r / freq, the discount is positive and the call or put value is >= 0 |
| Payoff.SingleNodeUndiscounted | BOPM.cpp:117-118 | a one-node distribution is discounted by (1 + r / freq)^0 = 1, so the value is payoff times probability |
| Payoff.PayoffParity | BOPM.cpp:114 | node by node, the call payoff minus the put payoff is price - strike |
| Payoff.PayoffSumParity | BOPM.cpp:112-116 | the weighted call payoffs minus the weighted put payoffs are the sum of prob * price minus strike times the sum of prob |
| Payoff.PutCallParity | BOPM.cpp:109-131 | call value minus put value is (sum of prob * price - strike * sum of prob) / discount, for any equal-length non-empty inputs |
| Payoff.PutCallParityUnitMass | BOPM.cpp:109-131 | when the probabilities sum to 1, call minus put is (expected price - strike) / discount |
| Sums.WeightedSumDifference | BOPM.cpp:115 | if two payoff lists differ at every node by x[i] - c, their weighted sums differ by the weighted sum of x minus c times the total weight |
| Bopm.Resize | BOPM.cpp:65-66 | `vector::resize`: the result has the requested length, keeps the old prefix and pads with the default value |
| Bopm.BOPM.constructor | BOPM.cpp:36-40 | stores the six parameters; steps is the truncated freq * maturity; UpChange = (S1Up - S0) / S0 and DownChange = (S0 - S1Down) / S0; level 1 then reproduces S1Up and S1Down |
| Bopm.BOPM.BuildTree | BOPM.cpp:64-85 | both tables get steps + 1 rows, row i of length i + 1; every node holds its closed-form price and probability; every row's probabilities sum to 1 and are >= 0 when 0 <= probUp <= 1; the returned pair is the last rows |
| Bopm.BOPM.FillLevel | BOPM.cpp:71-77 | one pass of the outer loop: row i is resized to i + 1 entries and set to the closed forms of level i; no other row changes |
| Bopm.BOPM.CallPrice | BOPM.cpp:109-119 | the loop's result is the discounted weighted sum of call payoffs over the prices, weighted by the leading probabilities (a longer probability vector is read only up to the price count); it is >= 0 under non-negative probabilities and a positive discount base; a single node is undiscounted |
| Bopm.BOPM.PutPrice | BOPM.cpp:121-131 | the same for the put payoff max(strike - price, 0) |
| Bopm.LevelsHoldNodes | BOPM.cpp:74-77 | tables whose rows are the lattice levels have row i of length i + 1 and the closed forms at every node (i, j) |
| Bopm.RowsAreDistributions | BOPM.cpp:76 | every row of such a probability table sums to 1 and has no negative entry when 0 <= probUp <= 1 |
| Bopm.LevelIsDistribution | BOPM.cpp:76 | the probabilities of any level n, the returned last one included, sum to 1 and are non-negative when probUp is a probability |
| Bopm.RiskNeutralDrift | BOPM.cpp:39 | when p S1Up + (1 - p) S1Down = S0 (1 + r / freq), the expected one-step growth of the derived moves is 1 + r / freq |
| Bopm.RiskNeutralPutCallParity | BOPM.cpp:109-131 | with the risk-neutral probability, call minus put on the level-n lattice is S0 - strike / (1 + r / freq)^n |

## Left out

- `exportCSV` (BOPM.cpp:87-107): file output and fixed 4-decimal formatting; it only reads the tables.
- `printResults` and `main`: console output and the hard-coded example parameters.
- Floating-point rounding: `double` and `std::pow` are exact `real` arithmetic. This includes the intermediate rounding of the multiply-then-divide steps in `binomialCoeff`.
- Bopm.BOPM.constructor: requires freq * maturity > -1 and S0 != 0. Converting a product <= -1 to `size_t` is undefined, because the truncated value does not fit. Dividing by S0 = 0 gives a non-finite double. A product in (-1, 0) truncates to steps = 0, and the model covers that case.
- Binomial.BinomialCoeff: requires r <= N, because for r > N the unsigned `N - r + i` wraps around.
- Bopm.BOPM.CallPrice: requires a non-empty price vector, at least as many probabilities as prices, freq != 0 and a non-zero discount. An empty vector makes `size() - 1` wrap around. A shorter probability vector is read out of bounds. A zero divisor gives a non-finite double (for a single node the source still returns the undiscounted sum, since pow(x, 0) = 1). A longer probability vector is priced on its leading entries, and the model covers that case.
- Bopm.BOPM.PutPrice: the same preconditions as `CallPrice`, for the same reasons.
- Bopm.BOPM.BuildTree: the inner loop runs in `FillLevel` on a copy of row i, which is then stored back. The source writes into `priceTree[i]` directly. The resulting tables are the same.
- `size_t` limits: the step count and indices are unbounded naturals, so a step count beyond `SIZE_MAX` is not modelled.
- Input validation: the source rejects no input (probUp outside [0, 1], S0 <= 0), so the model has no error paths. Properties that need such bounds take them as hypotheses.
