/** Left-to-right sums of real sequences, in the order the pricing loops accumulate them. */
module Sums {
  import opened Products

  /** s[0] + s[1] + ... + s[k-1] */
  function SumTo(s: seq<real>, k: nat): real
    requires k <= |s|
  {
    if k == 0 then 0.0 else SumTo(s, k - 1) + s[k - 1]
  }

  /** The sum of all of s. */
  function Sum(s: seq<real>): real
  {
    SumTo(s, |s|)
  }

  /** ws[0]*xs[0] + ... + ws[k-1]*xs[k-1] */
  function WeightedSumTo(xs: seq<real>, ws: seq<real>, k: nat): real
    requires k <= |xs| == |ws|
  {
    if k == 0 then 0.0 else WeightedSumTo(xs, ws, k - 1) + Mul(ws[k - 1], xs[k - 1])
  }

  /** The expectation of xs under the weights ws. */
  function WeightedSum(xs: seq<real>, ws: seq<real>): real
    requires |xs| == |ws|
  {
    WeightedSumTo(xs, ws, |xs|)
  }

  /** t is built from s by Pascal's rule: t[j] = p*s[j] + q*s[j-1], with the
      missing neighbours at both ends taken as zero. */
  ghost predicate PascalRow(s: seq<real>, t: seq<real>, p: real, q: real)
  {
    && |s| >= 1 && |t| == |s| + 1
    && t[0] == p * s[0]
    && (forall j {:trigger t[j]} :: 0 < j < |s| ==> t[j] == p * s[j] + q * s[j - 1])
    && t[|s|] == q * s[|s| - 1]
  }

  /** The three clauses of PascalRow, established one by one. */
  lemma PascalRowIntro(s: seq<real>, t: seq<real>, p: real, q: real)
    requires |s| >= 1 && |t| == |s| + 1
    requires t[0] == p * s[0]
    requires forall j {:trigger t[j]} :: 0 < j < |s| ==> t[j] == p * s[j] + q * s[j - 1]
    requires t[|s|] == q * s[|s| - 1]
    ensures PascalRow(s, t, p, q)
  {
  }

  /** If t is built from s by Pascal's rule (t[j] = p*s[j] + q*s[j-1], with the
      missing neighbours at both ends taken as zero), then Sum(t) == (p + q) * Sum(s). */
  lemma SumPascal(s: seq<real>, t: seq<real>, p: real, q: real)
    requires PascalRow(s, t, p, q)
    ensures Sum(t) == (p + q) * Sum(s)
  {
    var n := |s|;
    SumPascalPrefix(s, t, p, q, n);
    PascalTail(p, q, SumTo(t, n + 1), SumTo(t, n), SumTo(s, n), SumTo(s, n - 1), s[n - 1], t[n]);
  }

  lemma {:induction false} SumPascalPrefix(s: seq<real>, t: seq<real>, p: real, q: real, k: nat)
    requires |s| >= 1 && |t| == |s| + 1
    requires t[0] == p * s[0]
    requires forall j {:trigger t[j]} :: 0 < j < |s| ==> t[j] == p * s[j] + q * s[j - 1]
    requires 1 <= k <= |s|
    ensures SumTo(t, k) == p * SumTo(s, k) + q * SumTo(s, k - 1)
  {
    if k > 1 {
      SumPascalPrefix(s, t, p, q, k - 1);
      Regroup(p, q, SumTo(s, k - 1), SumTo(s, k - 2), s[k - 1], s[k - 2]);
    }
  }

  /** The arithmetic closing SumPascal, over plain reals. */
  lemma PascalTail(p: real, q: real, total: real, head: real, whole: real, shorter: real, x: real, last: real)
    requires head == p * whole + q * shorter
    requires whole == shorter + x
    requires total == head + last && last == q * x
    ensures total == (p + q) * whole
  {
  }

  lemma Regroup(p: real, q: real, a: real, b: real, x: real, y: real)
    ensures (p * a + q * b) + (p * x + q * y) == p * (a + x) + q * (b + y)
  {
  }

  /** If every weighted entry ws[j]*xs[j] is c times e[j], the weighted sum is c times Sum(e). */
  lemma WeightedSumScaled(xs: seq<real>, ws: seq<real>, e: seq<real>, c: real)
    requires |xs| == |ws| == |e|
    requires forall j {:trigger e[j]} :: 0 <= j < |e| ==> ws[j] * xs[j] == c * e[j]
    ensures WeightedSum(xs, ws) == c * Sum(e)
  {
    WeightedSumScaledTo(xs, ws, e, c, |e|);
  }

  lemma {:induction false} WeightedSumScaledTo(xs: seq<real>, ws: seq<real>, e: seq<real>, c: real, k: nat)
    requires k <= |xs| == |ws| == |e|
    requires forall j {:trigger e[j]} :: 0 <= j < |e| ==> ws[j] * xs[j] == c * e[j]
    ensures WeightedSumTo(xs, ws, k) == c * SumTo(e, k)
  {
    if k > 0 {
      WeightedSumScaledTo(xs, ws, e, c, k - 1);
      assert ws[k - 1] * xs[k - 1] == c * e[k - 1];
      Distribute(c, SumTo(e, k - 1), e[k - 1]);
    }
  }

  lemma Distribute(c: real, a: real, b: real)
    ensures c * a + c * b == c * (a + b)
  {
  }

  lemma {:induction false} WeightedSumToNonNegative(xs: seq<real>, ws: seq<real>, k: nat)
    requires k <= |xs| == |ws|
    requires forall i :: 0 <= i < |xs| ==> xs[i] >= 0.0
    requires forall i :: 0 <= i < |ws| ==> ws[i] >= 0.0
    ensures WeightedSumTo(xs, ws, k) >= 0.0
  {
    if k > 0 {
      WeightedSumToNonNegative(xs, ws, k - 1);
      ProductNonNegative(ws[k - 1], xs[k - 1]);
    }
  }

  lemma ProductNonNegative(a: real, b: real)
    requires a >= 0.0 && b >= 0.0
    ensures a * b >= 0.0
  {
  }

  /** If a[i] - b[i] == x[i] - c at every index, then under the same weights the
      weighted sums differ by WeightedSumTo(x) - c * SumTo(w). */
  lemma {:induction false} WeightedSumDifference(a: seq<real>, b: seq<real>, x: seq<real>, w: seq<real>, c: real, k: nat)
    requires |a| == |b| == |x| == |w| && k <= |w|
    requires forall i :: 0 <= i < |w| ==> a[i] - b[i] == x[i] - c
    ensures WeightedSumTo(a, w, k) - WeightedSumTo(b, w, k) == WeightedSumTo(x, w, k) - c * SumTo(w, k)
  {
    if k > 0 {
      WeightedSumDifference(a, b, x, w, c, k - 1);
      DifferenceNode(a, b, x, w, c, k);
    }
  }

  /** Adding entry k - 1 keeps the difference of the weighted sums. */
  lemma DifferenceNode(a: seq<real>, b: seq<real>, x: seq<real>, w: seq<real>, c: real, k: nat)
    requires |a| == |b| == |x| == |w| && 1 <= k <= |w|
    requires a[k - 1] - b[k - 1] == x[k - 1] - c
    requires WeightedSumTo(a, w, k - 1) - WeightedSumTo(b, w, k - 1) == WeightedSumTo(x, w, k - 1) - c * SumTo(w, k - 1)
    ensures WeightedSumTo(a, w, k) - WeightedSumTo(b, w, k) == WeightedSumTo(x, w, k) - c * SumTo(w, k)
  {
    assert Mul(c, SumTo(w, k - 1)) == c * SumTo(w, k - 1);
    DifferenceStep(c, WeightedSumTo(a, w, k - 1), WeightedSumTo(b, w, k - 1), WeightedSumTo(x, w, k - 1),
                   SumTo(w, k - 1), w[k - 1], a[k - 1], b[k - 1], x[k - 1],
                   WeightedSumTo(a, w, k), WeightedSumTo(b, w, k), WeightedSumTo(x, w, k), SumTo(w, k));
    assert Mul(c, SumTo(w, k)) == c * SumTo(w, k);
  }

  /** The inductive step of WeightedSumDifference, over plain reals. */
  lemma DifferenceStep(c: real, a0: real, b0: real, x0: real, m0: real, wi: real, ai: real, bi: real, xi: real,
                       a1: real, b1: real, x1: real, m1: real)
    requires a0 - b0 == x0 - Mul(c, m0) && ai - bi == xi - c
    requires a1 == a0 + Mul(wi, ai) && b1 == b0 + Mul(wi, bi) && x1 == x0 + Mul(wi, xi) && m1 == m0 + wi
    ensures a1 - b1 == x1 - Mul(c, m1)
  {
    assert wi * ai - wi * bi == wi * (ai - bi);
    assert wi * xi - c * wi == wi * (xi - c);
    assert c * m1 == c * m0 + c * wi;
  }
}
