/** Whole-number powers of reals: the lattice raises growth factors, probabilities
    and the per-period discount base to a non-negative integer exponent. */
module Powers {
  import opened Products

  /** x raised to the n-th power (x^0 is 1 for every x). */
  function Pow(x: real, n: nat): real
  {
    if n == 0 then 1.0 else x * Pow(x, n - 1)
  }

  lemma {:induction false} PowNonNegative(x: real, n: nat)
    requires x >= 0.0
    ensures Pow(x, n) >= 0.0
  {
    if n > 0 {
      PowNonNegative(x, n - 1);
    }
  }

  lemma {:induction false} PowPositive(x: real, n: nat)
    requires x > 0.0
    ensures Pow(x, n) > 0.0
  {
    if n > 0 {
      PowPositive(x, n - 1);
    }
  }

  lemma {:induction false} PowOne(n: nat)
    ensures Pow(1.0, n) == 1.0
  {
    if n > 0 {
      PowOne(n - 1);
    }
  }

  /** (a*b)^n = a^n * b^n, with the product a*b passed in as ab. */
  lemma {:induction false} PowProduct(a: real, b: real, ab: real, n: nat)
    requires ab == a * b
    ensures Pow(ab, n) == Pow(a, n) * Pow(b, n)
  {
    if n > 0 {
      PowProduct(a, b, ab, n - 1);
      Rearrange(a, b, Pow(a, n - 1), Pow(b, n - 1));
    }
  }

  /** PowProduct with the right-hand product named by Mul. */
  lemma PowProductNamed(a: real, b: real, ab: real, n: nat)
    requires ab == a * b
    ensures Pow(ab, n) == Mul(Pow(a, n), Pow(b, n))
  {
    PowProduct(a, b, ab, n);
  }

  lemma Rearrange(a: real, b: real, x: real, y: real)
    ensures (a * b) * (x * y) == (a * x) * (b * y)
  {
  }
}
