/** Binomial coefficients: the exact "n choose k", the multiplicative loop the pricer
    uses to compute it, and the binomial theorem that makes each lattice level's
    probabilities sum to one. */
module Binomial {
  import opened Products
  import opened Powers
  import opened Sums

  /** "n choose k" by Pascal's rule; zero when k > n. */
  function Choose(n: nat, k: nat): nat
  {
    if k == 0 then 1
    else if n == 0 then 0
    else Choose(n - 1, k - 1) + Choose(n - 1, k)
  }

  function Factorial(n: nat): (f: nat)
    ensures f >= 1
  {
    if n == 0 then 1 else n * Factorial(n - 1)
  }

  lemma {:induction false} ChooseAbove(n: nat, k: nat)
    requires k > n
    ensures Choose(n, k) == 0
  {
    if n > 0 {
      ChooseAbove(n - 1, k - 1);
      ChooseAbove(n - 1, k);
    }
  }

  lemma {:induction false} ChooseDiagonal(n: nat)
    ensures Choose(n, n) == 1
  {
    if n > 0 {
      ChooseDiagonal(n - 1);
      ChooseAbove(n - 1, n);
    }
  }

  /** Pascal's rule agrees with the factorial formula n! / (k! (n-k)!). */
  lemma {:induction false} ChooseFactorial(n: nat, k: nat)
    requires k <= n
    ensures Choose(n, k) * Factorial(k) * Factorial(n - k) == Factorial(n)
  {
    if k == 0 {
    } else if k == n {
      ChooseDiagonal(n);
    } else {
      ChooseFactorial(n - 1, k - 1);
      ChooseFactorial(n - 1, k);
      assert n - 1 - (k - 1) == n - k;
      PascalFactorialStep(n, k, Choose(n - 1, k - 1), Choose(n - 1, k),
                          Factorial(k - 1), Factorial(n - 1 - k), Factorial(n - 1));
    }
  }

  /** The ring arithmetic behind one step of ChooseFactorial, kept apart from the
      recursive definitions so the solver sees only the polynomial identity. */
  lemma PascalFactorialStep(n: int, k: int, a: int, b: int, fk1: int, fnk1: int, fn1: int)
    requires a * fk1 * ((n - k) * fnk1) == fn1
    requires b * (k * fk1) * fnk1 == fn1
    ensures (a + b) * (k * fk1) * ((n - k) * fnk1) == n * fn1
  {
    var x := a * fk1 * ((n - k) * fnk1);
    var y := b * (k * fk1) * fnk1;
    assert (a + b) * (k * fk1) * ((n - k) * fnk1) == k * x + (n - k) * y;
  }

  /** Absorption identity: k * C(n, k) == n * C(n-1, k-1). */
  lemma Absorption(n: nat, k: nat)
    requires 1 <= k <= n
    ensures k * Choose(n, k) == n * Choose(n - 1, k - 1)
  {
    ChooseFactorial(n, k);
    ChooseFactorial(n - 1, k - 1);
    assert n - 1 - (k - 1) == n - k;
    AbsorptionAlgebra(n, k, Choose(n, k), Choose(n - 1, k - 1),
                      Factorial(k - 1), Factorial(n - k), Factorial(n - 1));
  }

  lemma AbsorptionAlgebra(n: int, k: int, c: int, c': int, fk1: int, fnk: int, fn1: int)
    requires fk1 >= 1 && fnk >= 1
    requires c * (k * fk1) * fnk == n * fn1
    requires c' * fk1 * fnk == fn1
    ensures k * c == n * c'
  {
    var f := fk1 * fnk;
    assert (k * c) * f == c * (k * fk1) * fnk;
    assert (n * c') * f == n * (c' * fk1 * fnk);
    assert f > 0;
    assert (k * c - n * c') * f == 0;
  }

  /** The multiplicative loop of the pricer: after step i the accumulator holds
      C(N - r + i, i), so on exit it holds C(N, r). Divisions are exact over the reals. */
  method BinomialCoeff(n: nat, r: nat) returns (result: real)
    requires r <= n
    ensures result == Choose(n, r) as real
  {
    result := 1.0;
    var i: nat := 1;
    while i <= r
      invariant 1 <= i <= r + 1
      invariant result == Choose(n - r + i - 1, i - 1) as real
    {
      var m: nat := n - r + i;
      Absorption(m, i);
      ExactQuotient(Choose(m - 1, i - 1), Choose(m, i), m, i, result);
      result := result * m as real;
      result := result / i as real;
      i := i + 1;
    }
  }

  /** One step of the loop: when i * next == m * prev, multiplying prev by m and
      dividing by i lands exactly on next. */
  lemma ExactQuotient(prev: int, next: int, m: int, i: int, acc: real)
    requires i >= 1 && i * next == m * prev
    requires acc == prev as real
    ensures acc * m as real / i as real == next as real
  {
    assert (i as real) * (next as real) == (m as real) * (prev as real);
  }

  /** Term j of the binomial expansion of (p + q)^n: C(n, j) p^(n-j) q^j. */
  function Term(p: real, q: real, n: nat, j: nat): real
    requires j <= n
  {
    Choose(n, j) as real * Pow(p, n - j) * Pow(q, j)
  }

  /** The n+1 terms of the expansion of (p + q)^n, in order of j. */
  function Expansion(p: real, q: real, n: nat): seq<real>
  {
    seq(n + 1, j requires 0 <= j <= n => Term(p, q, n, j))
  }

  /** Pascal's rule on terms: term j of (p+q)^(n+1) is p times term j plus q times
      term j-1 of (p+q)^n, where a term outside 0..n counts as zero. */
  lemma TermStep(p: real, q: real, n: nat, j: nat)
    requires j <= n + 1
    ensures j == 0 ==> Term(p, q, n + 1, j) == Mul(p, Term(p, q, n, 0))
    ensures 0 < j <= n ==> Term(p, q, n + 1, j) == Mul(p, Term(p, q, n, j)) + Mul(q, Term(p, q, n, j - 1))
    ensures j == n + 1 ==> Term(p, q, n + 1, j) == Mul(q, Term(p, q, n, n))
  {
    if j == 0 {
      assert Pow(p, n + 1) == p * Pow(p, n);
    } else if j <= n {
      assert Term(p, q, n + 1, j) == Mul3(Choose(n + 1, j) as real, Pow(p, n + 1 - j), Pow(q, j));
      assert Term(p, q, n, j) == Mul3(Choose(n, j) as real, Pow(p, n - j), Pow(q, j));
      assert Term(p, q, n, j - 1) == Mul3(Choose(n, j - 1) as real, Pow(p, n - (j - 1)), Pow(q, j - 1));
      assert Pow(p, n + 1 - j) == Mul(p, Pow(p, n - j));
      assert Pow(q, j) == Mul(q, Pow(q, j - 1));
      assert Choose(n + 1, j) as real == Choose(n, j - 1) as real + Choose(n, j) as real;
      TermPascalAlgebra(p, q, Choose(n, j) as real, Choose(n, j - 1) as real, Choose(n + 1, j) as real,
                        Pow(p, n - j), Pow(q, j - 1), Pow(p, n + 1 - j), Pow(q, j),
                        Term(p, q, n + 1, j), Term(p, q, n, j), Term(p, q, n, j - 1));
    } else {
      ChooseDiagonal(n);
      ChooseDiagonal(n + 1);
      assert Pow(q, n + 1) == q * Pow(q, n);
    }
  }

  /** The regrouping behind TermStep, over plain reals: with p1 = p pp and q1 = q qq,
      (a + b) p1 q1 == p (a pp q1) + q (b p1 qq). */
  lemma TermPascalAlgebra(p: real, q: real, a: real, b: real, c: real, pp: real, qq: real, p1: real, q1: real,
                          t1: real, t0: real, tm: real)
    requires c == b + a && p1 == Mul(p, pp) && q1 == Mul(q, qq)
    requires t1 == Mul3(c, p1, q1) && t0 == Mul3(a, pp, q1) && tm == Mul3(b, p1, qq)
    ensures t1 == Mul(p, t0) + Mul(q, tm)
  {
    assert (b + a) * (p * pp) * q1 == p * (a * pp * q1) + q * (b * (p * pp) * qq);
  }

  /** Pascal's rule on whole rows of the expansion, for the rows s of (p+q)^n and t
      of (p+q)^(n+1). */
  lemma ExpansionStep(p: real, q: real, n: nat, j: nat, s: seq<real>, t: seq<real>)
    requires s == Expansion(p, q, n) && t == Expansion(p, q, n + 1)
    requires j <= n + 1
    ensures j == 0 ==> t[j] == p * s[0]
    ensures 0 < j <= n ==> t[j] == p * s[j] + q * s[j - 1]
    ensures j == n + 1 ==> t[j] == q * s[n]
  {
    TermStep(p, q, n, j);
    assert t[j] == Term(p, q, n + 1, j);
    if j == 0 {
      assert s[0] == Term(p, q, n, 0);
      assert t[j] == Mul(p, s[0]);
    } else if j <= n {
      assert s[j] == Term(p, q, n, j);
      assert s[j - 1] == Term(p, q, n, j - 1);
      assert t[j] == Mul(p, s[j]) + Mul(q, s[j - 1]);
    } else {
      assert s[n] == Term(p, q, n, n);
      assert t[j] == Mul(q, s[n]);
    }
  }

  /** Consecutive rows of the expansion are related by Pascal's rule. */
  lemma ExpansionPascal(p: real, q: real, n: nat)
    ensures PascalRow(Expansion(p, q, n), Expansion(p, q, n + 1), p, q)
  {
    var s, t := Expansion(p, q, n), Expansion(p, q, n + 1);
    ExpansionInner(p, q, n, s, t);
    ExpansionStep(p, q, n, 0, s, t);
    ExpansionStep(p, q, n, n + 1, s, t);
    PascalRowIntro(s, t, p, q);
  }

  lemma ExpansionInner(p: real, q: real, n: nat, s: seq<real>, t: seq<real>)
    requires s == Expansion(p, q, n) && t == Expansion(p, q, n + 1)
    ensures forall j {:trigger t[j]} :: 0 < j < |s| ==> t[j] == p * s[j] + q * s[j - 1]
  {
    forall j | 0 < j <= n
      ensures t[j] == p * s[j] + q * s[j - 1]
    {
      ExpansionStep(p, q, n, j, s, t);
    }
  }

  /** The binomial theorem: the terms of the expansion add up to (p + q)^n. */
  lemma {:induction false} BinomialTheorem(p: real, q: real, n: nat)
    ensures Sum(Expansion(p, q, n)) == Pow(p + q, n)
  {
    if n == 0 {
      var e := Expansion(p, q, 0);
      assert e[0] == 1.0;
      assert Sum(e) == SumTo(e, 0) + e[0];
    } else {
      ExpansionPascal(p, q, n - 1);
      SumPascal(Expansion(p, q, n - 1), Expansion(p, q, n), p, q);
      BinomialTheorem(p, q, n - 1);
      Scale(p + q, Sum(Expansion(p, q, n - 1)), Pow(p + q, n - 1));
    }
  }

  /** Multiplying equal reals by the same factor, stated over plain reals: the
      recursion step of BinomialTheorem closes far faster with it than without. */
  lemma Scale(c: real, a: real, b: real)
    requires a == b
    ensures c * a == c * b
  {
  }
}
