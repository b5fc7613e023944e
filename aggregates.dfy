/**
 * The aggregates calculate_phase_statistics takes over the values of one
 * phase: sum, mean, minimum, maximum and population variance. Each one reads
 * 0 on an empty list, as the `... if phase_mem else 0` guards do.
 */
module Aggregates {
  /** The values at the given positions, in that order (`[values[i] for i in indices]`). */
  function Select(values: seq<real>, indices: seq<nat>): (r: seq<real>)
    requires forall i :: 0 <= i < |indices| ==> indices[i] < |values|
  {
    seq(|indices|, i requires 0 <= i < |indices| => values[indices[i]])
  }

  function Sum(s: seq<real>): real
  {
    if s == [] then 0.0 else Sum(s[..|s| - 1]) + s[|s| - 1]
  }

  /** `sum(s) / len(s) if s else 0` */
  function Mean(s: seq<real>): real
  {
    if s == [] then 0.0 else Sum(s) / (|s| as real)
  }

  /** `min(s) if s else 0` */
  function Min(s: seq<real>): (r: real)
    ensures s != [] ==> r in s && forall i :: 0 <= i < |s| ==> r <= s[i]
  {
    if s == [] then 0.0
    else if |s| == 1 then s[0]
    else
      var m := Min(s[..|s| - 1]);
      if s[|s| - 1] < m then s[|s| - 1] else m
  }

  /** `max(s) if s else 0` */
  function Max(s: seq<real>): (r: real)
    ensures s != [] ==> r in s && forall i :: 0 <= i < |s| ==> s[i] <= r
  {
    if s == [] then 0.0
    else if |s| == 1 then s[0]
    else
      var m := Max(s[..|s| - 1]);
      if s[|s| - 1] > m then s[|s| - 1] else m
  }

  /** The sum of the squared deviations from mu. */
  function SquaredDeviation(s: seq<real>, mu: real): (r: real)
    ensures r >= 0.0
  {
    if s == [] then 0.0
    else
      var d := s[|s| - 1] - mu;
      SquareNonNegative(d);
      SquaredDeviation(s[..|s| - 1], mu) + d * d
  }

  lemma SquareNonNegative(d: real)
    ensures d * d >= 0.0
  {
    if d < 0.0 {
      assert d * d == (-d) * (-d);
    }
  }

  /** Scaling by a positive factor keeps the order. */
  lemma CancelPositive(n: real, a: real, b: real)
    requires n > 0.0 && n * a <= n * b
    ensures a <= b
  {
  }

  /** A lower bound on n times a quotient is a lower bound on the quotient. */
  lemma QuotientAtLeast(x: real, n: real, lo: real)
    requires n > 0.0 && n * lo <= x
    ensures lo <= x / n
  {
    var q := x / n;
    assert n * q == x;
    CancelPositive(n, lo, q);
  }

  /** An upper bound on n times a quotient is an upper bound on the quotient. */
  lemma QuotientAtMost(x: real, n: real, hi: real)
    requires n > 0.0 && x <= n * hi
    ensures x / n <= hi
  {
    var q := x / n;
    assert n * q == x;
    CancelPositive(n, q, hi);
  }

  /** The population variance, the quantity whose square root is `memory_std`. */
  function Variance(s: seq<real>): real
  {
    if s == [] then 0.0 else SquaredDeviation(s, Mean(s)) / (|s| as real)
  }

  /** A sum of values no smaller than lo is at least |s| times lo. */
  lemma {:induction false} SumAtLeast(s: seq<real>, lo: real)
    requires forall i :: 0 <= i < |s| ==> lo <= s[i]
    ensures (|s| as real) * lo <= Sum(s)
  {
    if s != [] {
      var init := s[..|s| - 1];
      SumAtLeast(init, lo);
      assert (|s| as real) * lo == (|init| as real) * lo + lo;
    }
  }

  /** A sum of values no larger than hi is at most |s| times hi. */
  lemma {:induction false} SumAtMost(s: seq<real>, hi: real)
    requires forall i :: 0 <= i < |s| ==> s[i] <= hi
    ensures Sum(s) <= (|s| as real) * hi
  {
    if s != [] {
      var init := s[..|s| - 1];
      SumAtMost(init, hi);
      assert (|s| as real) * hi == (|init| as real) * hi + hi;
    }
  }

  /** The mean of a non-empty list lies between its minimum and its maximum. */
  lemma MeanBounds(s: seq<real>)
    requires s != []
    ensures Min(s) <= Mean(s) <= Max(s)
  {
    SumAtLeast(s, Min(s));
    SumAtMost(s, Max(s));
    QuotientAtLeast(Sum(s), |s| as real, Min(s));
    QuotientAtMost(Sum(s), |s| as real, Max(s));
  }

  /** The variance is never negative. */
  lemma VarianceNonNegative(s: seq<real>)
    ensures Variance(s) >= 0.0
  {
    if s != [] {
      QuotientAtLeast(SquaredDeviation(s, Mean(s)), |s| as real, 0.0);
    }
  }
}
