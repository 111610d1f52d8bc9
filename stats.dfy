/**
  The column statistics pandas computes for the pipeline: sum, mean, max and
  the sample standard deviation (divisor n - 1). Square roots and the standard
  normal CDF are not computed; they are parameters constrained by `IsSqrt` and
  `IsCdf`.
*/
module Stats {
  import opened Wrappers

  function Sum(xs: seq<real>): real {
    if xs == [] then 0.0 else xs[0] + Sum(xs[1..])
  }

  /** pandas `mean()` of a non-empty column. */
  function Average(xs: seq<real>): real
    requires |xs| > 0
  {
    Sum(xs) / (|xs| as real)
  }

  /** pandas `max()` of a non-empty column. */
  function Max(xs: seq<real>): (m: real)
    requires |xs| > 0
    ensures m in xs
    ensures forall x :: x in xs ==> x <= m
  {
    if |xs| == 1 then xs[0]
    else
      var rest := Max(xs[1..]);
      assert forall x :: x in xs ==> x == xs[0] || x in xs[1..];
      if xs[0] > rest then xs[0] else rest
  }

  function Square(d: real): real {
    d * d
  }

  lemma ProductPositive(a: real, b: real, p: real)
    requires a > 0.0 && b > 0.0 && p == a * b
    ensures p > 0.0
  {
  }

  lemma SquareFacts(d: real)
    ensures Square(d) >= 0.0
    ensures d != 0.0 ==> Square(d) > 0.0
    ensures d == 0.0 ==> Square(d) == 0.0
  {
    if d > 0.0 {
      ProductPositive(d, d, Square(d));
    } else if d < 0.0 {
      ProductPositive(-d, -d, Square(d));
    }
  }

  /** The sum of the squared deviations of `xs` from `c`. */
  function SquaredDeviations(xs: seq<real>, c: real): (r: real)
    ensures r >= 0.0
  {
    if xs == [] then 0.0
    else
      SquareFacts(xs[0] - c);
      Square(xs[0] - c) + SquaredDeviations(xs[1..], c)
  }

  /** pandas `var()`: the sample variance, dividing by n - 1. */
  function SampleVariance(xs: seq<real>): (v: real)
    requires |xs| >= 2
    ensures v >= 0.0
  {
    SquaredDeviations(xs, Average(xs)) / ((|xs| - 1) as real)
  }

  /** `root` behaves like the square root where the proofs need it: non-negative, and zero only at zero. */
  ghost predicate IsSqrt(root: real -> real) {
    forall v :: 0.0 <= v ==> 0.0 <= root(v) && (root(v) == 0.0 <==> v == 0.0)
  }

  /** `phi` behaves like a cumulative distribution function: bounded by [0, 1] and monotone. */
  ghost predicate IsCdf(phi: real -> real) {
    && (forall z :: 0.0 <= phi(z) <= 1.0)
    && (forall a, b :: a <= b ==> phi(a) <= phi(b))
  }

  /** pandas `std()`: NaN (`None`) for fewer than two values, since it divides by n - 1. */
  function SampleStd(xs: seq<real>, root: real -> real): Option<real> {
    if |xs| < 2 then None else Some(root(SampleVariance(xs)))
  }

  /** Every value of the column is the same. */
  predicate Constant(xs: seq<real>) {
    forall i, j :: 0 <= i < |xs| && 0 <= j < |xs| ==> xs[i] == xs[j]
  }

  /** Dividing both sides by the same positive number keeps an inequality. */
  lemma DivideKeepsOrder(a: real, b: real, n: real)
    requires n > 0.0 && a <= b
    ensures a / n <= b / n
  {
    var qa, qb := a / n, b / n;
    assert qa * n == a && qb * n == b;
    assert (qb - qa) * n == b - a;
  }

  lemma DividePositive(a: real, n: real)
    requires a > 0.0 && n > 0.0
    ensures a / n > 0.0
  {
    var q := a / n;
    assert q * n == a;
  }

  lemma DivideProduct(n: real, c: real)
    requires n > 0.0
    ensures (n * c) / n == c
  {
  }

  /** One value away from `c` makes the squared deviations strictly positive. */
  lemma {:induction false} SquaredDeviationsPositive(xs: seq<real>, c: real, i: nat)
    requires i < |xs| && xs[i] != c
    ensures SquaredDeviations(xs, c) > 0.0
  {
    SquareFacts(xs[0] - c);
    if i > 0 {
      SquaredDeviationsPositive(xs[1..], c, i - 1);
    }
  }

  lemma {:induction false} SquaredDeviationsOfConstant(xs: seq<real>, c: real)
    requires forall x :: x in xs ==> x == c
    ensures SquaredDeviations(xs, c) == 0.0
  {
    if xs != [] {
      assert xs[0] in xs;
      assert forall x :: x in xs[1..] ==> x in xs;
      SquaredDeviationsOfConstant(xs[1..], c);
      SquareFacts(xs[0] - c);
    }
  }

  lemma {:induction false} SumAtMost(xs: seq<real>, b: real)
    requires forall x :: x in xs ==> x <= b
    ensures Sum(xs) <= (|xs| as real) * b
  {
    if xs != [] {
      assert forall x :: x in xs[1..] ==> x in xs;
      SumAtMost(xs[1..], b);
      assert xs[0] in xs && Sum(xs) == xs[0] + Sum(xs[1..]);
      assert (|xs| as real) * b == b + ((|xs| - 1) as real) * b;
    }
  }

  lemma {:induction false} SumAtLeast(xs: seq<real>, b: real)
    requires forall x :: x in xs ==> b <= x
    ensures (|xs| as real) * b <= Sum(xs)
  {
    if xs != [] {
      assert forall x :: x in xs[1..] ==> x in xs;
      SumAtLeast(xs[1..], b);
      assert xs[0] in xs && Sum(xs) == xs[0] + Sum(xs[1..]);
      assert (|xs| as real) * b == b + ((|xs| - 1) as real) * b;
    }
  }

  /** The mean of a column never exceeds its maximum. */
  lemma AverageAtMostMax(xs: seq<real>)
    requires |xs| > 0
    ensures Average(xs) <= Max(xs)
  {
    var m := Max(xs);
    AverageBetween(xs, Min(xs), m);
  }

  function Min(xs: seq<real>): (m: real)
    requires |xs| > 0
    ensures forall x :: x in xs ==> m <= x
  {
    if |xs| == 1 then xs[0]
    else
      var rest := Min(xs[1..]);
      assert forall x :: x in xs ==> x == xs[0] || x in xs[1..];
      if xs[0] < rest then xs[0] else rest
  }

  /** A mean of values in [lo, hi] lies in [lo, hi]. */
  lemma AverageBetween(xs: seq<real>, lo: real, hi: real)
    requires |xs| > 0
    requires forall x :: x in xs ==> lo <= x <= hi
    ensures lo <= Average(xs) <= hi
  {
    var n := |xs| as real;
    SumAtMost(xs, hi);
    SumAtLeast(xs, lo);
    DivideKeepsOrder(Sum(xs), n * hi, n);
    DivideKeepsOrder(n * lo, Sum(xs), n);
    DivideProduct(n, hi);
    DivideProduct(n, lo);
  }

  /** The mean of a constant column is that constant. */
  lemma AverageOfConstant(xs: seq<real>)
    requires |xs| > 0 && Constant(xs)
    ensures Average(xs) == xs[0]
  {
    AverageBetween(xs, xs[0], xs[0]);
  }

  /** The sample variance is zero exactly when the column is constant. */
  lemma VarianceZeroIffConstant(xs: seq<real>)
    requires |xs| >= 2
    ensures SampleVariance(xs) == 0.0 <==> Constant(xs)
  {
    var m := Average(xs);
    var n := (|xs| - 1) as real;
    var sd := SquaredDeviations(xs, m);
    assert SampleVariance(xs) == sd / n;
    if Constant(xs) {
      AverageOfConstant(xs);
      assert forall x :: x in xs ==> x == m;
      SquaredDeviationsOfConstant(xs, m);
    } else {
      var i, j :| 0 <= i < |xs| && 0 <= j < |xs| && xs[i] != xs[j];
      if xs[i] != m {
        SquaredDeviationsPositive(xs, m, i);
      } else {
        SquaredDeviationsPositive(xs, m, j);
      }
      DividePositive(sd, n);
    }
  }

  /** The sample standard deviation of two or more values is defined, non-negative, and zero exactly for a constant column. */
  lemma StdZeroIffConstant(xs: seq<real>, root: real -> real)
    requires IsSqrt(root) && |xs| >= 2
    ensures SampleStd(xs, root).Some? && SampleStd(xs, root).value >= 0.0
    ensures SampleStd(xs, root).value == 0.0 <==> Constant(xs)
  {
    VarianceZeroIffConstant(xs);
  }
}
