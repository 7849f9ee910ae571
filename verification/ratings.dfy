/** Arithmetic over review ratings: the exact mean that the on-demand averages
    return, and the HALF_UP rounding to one decimal that is stored on an
    instructor profile. Ratings are Java `Integer`s without range validation,
    so negative values are admitted. */
module Ratings {

  /** The sum `IntStream.average()` divides (unbounded, as exact arithmetic). */
  function Sum(xs: seq<int>): int
  {
    if |xs| == 0 then 0 else Sum(xs[..|xs| - 1]) + xs[|xs| - 1]
  }

  lemma {:induction false} SumAppend(a: seq<int>, b: seq<int>)
    ensures Sum(a + b) == Sum(a) + Sum(b)
    decreases |b|
  {
    if |b| == 0 {
      assert a + b == a;
    } else {
      assert (a + b)[..|a + b| - 1] == a + b[..|b| - 1];
      SumAppend(a, b[..|b| - 1]);
    }
  }

  /** n ratings in [lo, hi] sum to a value in [n*lo, n*hi]. */
  lemma {:induction false} SumBounds(xs: seq<int>, lo: int, hi: int)
    requires forall i :: 0 <= i < |xs| ==> lo <= xs[i] <= hi
    ensures |xs| * lo <= Sum(xs) <= |xs| * hi
  {
    if |xs| > 0 {
      var init := xs[..|xs| - 1];
      assert forall i :: 0 <= i < |init| ==> init[i] == xs[i];
      SumBounds(init, lo, hi);
      assert |xs| * lo == |init| * lo + lo;
      assert |xs| * hi == |init| * hi + hi;
    }
  }

  /** `IntStream.average().orElse(0.0)` as an exact rational. */
  function Mean(xs: seq<int>): (m: real)
    ensures |xs| == 0 ==> m == 0.0
    ensures |xs| > 0 ==> m * (|xs| as real) == Sum(xs) as real
  {
    if |xs| == 0 then 0.0 else (Sum(xs) as real) / (|xs| as real)
  }

  /** `t` is the fraction num/den (den > 0) rounded to an integer with
      RoundingMode.HALF_UP: t - 1/2 <= num/den < t + 1/2 for a non-negative
      fraction and t - 1/2 < num/den <= t + 1/2 for a negative one (ties go
      away from zero), with the denominator cleared. */
  predicate IsHalfUp(num: int, den: int, t: int) {
    && den > 0
    && if num >= 0 then den * (2 * t - 1) <= 2 * num < den * (2 * t + 1)
       else den * (2 * t - 1) < 2 * num <= den * (2 * t + 1)
  }

  /** Cancelling a positive factor in a strict inequality. */
  lemma CancelLt(d: int, a: int, b: int)
    requires d > 0 && d * a < d * b
    ensures a < b
  {
  }

  /** HALF_UP names one integer: the rounding of a fraction is well defined. */
  lemma HalfUpUnique(num: int, den: int, t1: int, t2: int)
    requires IsHalfUp(num, den, t1) && IsHalfUp(num, den, t2)
    ensures t1 == t2
  {
    CancelLt(den, 2 * t1 - 1, 2 * t2 + 1);
    CancelLt(den, 2 * t2 - 1, 2 * t1 + 1);
  }

  /** HALF_UP rounding commutes with negation: -num/den rounds to -t. */
  lemma HalfUpNegate(num: int, den: int, t: int)
    requires num > 0 && IsHalfUp(num, den, t)
    ensures IsHalfUp(-num, den, -t)
  {
    assert den * (2 * (-t) - 1) == -(den * (2 * t + 1));
    assert den * (2 * (-t) + 1) == -(den * (2 * t - 1));
  }

  /** For a non-negative fraction num/den, floor((2*num + den) / (2*den))
      is its HALF_UP rounding. */
  lemma HalfUpOfNonNegative(num: int, den: int)
    requires num >= 0 && den > 0
    ensures IsHalfUp(num, den, (2 * num + den) / (2 * den))
  {
    var q := (2 * num + den) / (2 * den);
    var rem := (2 * num + den) % (2 * den);
    assert 2 * num + den == 2 * den * q + rem && 0 <= rem < 2 * den;
    assert den * (2 * q - 1) == 2 * den * q - den;
    assert den * (2 * q + 1) == 2 * den * q + den;
  }

  /** The tenths that `BigDecimal.setScale(1, HALF_UP)` keeps of sum/n. */
  function HalfUpTenths(sum: int, n: int): (t: int)
    requires n > 0
    ensures IsHalfUp(10 * sum, n, t)
  {
    if sum >= 0 then
      HalfUpOfNonNegative(10 * sum, n);
      (20 * sum + n) / (2 * n)
    else
      HalfUpOfNonNegative(-10 * sum, n);
      HalfUpNegate(-10 * sum, n, (20 * (-sum) + n) / (2 * n));
      -((20 * (-sum) + n) / (2 * n))
  }

  /** The rating `updateInstructorRating` stores, in tenths: 0 for no
      reviews, else the mean rounded HALF_UP to one decimal. */
  function RoundedTenths(xs: seq<int>): (t: int)
    ensures |xs| == 0 ==> t == 0
    ensures |xs| > 0 ==> IsHalfUp(10 * Sum(xs), |xs|, t)
  {
    if |xs| == 0 then 0 else HalfUpTenths(Sum(xs), |xs|)
  }

  /** The stored rating as a decimal value: a whole number of tenths. */
  function RoundedRating(xs: seq<int>): (r: real)
    ensures |xs| == 0 ==> r == 0.0
    ensures |xs| > 0 ==> IsHalfUp(10 * Sum(xs), |xs|, (10.0 * r).Floor)
    ensures (10.0 * r).Floor as real == 10.0 * r
  {
    (RoundedTenths(xs) as real) / 10.0
  }

  /** Dividing an inequality by a positive factor. */
  lemma ScaleBack(a: real, b: real, c: real)
    requires c > 0.0
    ensures a * c <= b * c ==> a <= b
  {
  }

  /** The mean lies between the least and the greatest rating. */
  lemma MeanWithinBounds(xs: seq<int>, lo: int, hi: int)
    requires |xs| > 0
    requires forall i :: 0 <= i < |xs| ==> lo <= xs[i] <= hi
    ensures lo as real <= Mean(xs) <= hi as real
  {
    SumBounds(xs, lo, hi);
    var n := |xs| as real;
    assert Mean(xs) * n == Sum(xs) as real;
    assert (lo as real) * n <= Sum(xs) as real <= (hi as real) * n;
    ScaleBack(lo as real, Mean(xs), n);
    ScaleBack(Mean(xs), hi as real, n);
  }

  /** The stored rating lies between the least and the greatest rating. */
  lemma RatingWithinBounds(xs: seq<int>, lo: int, hi: int)
    requires |xs| > 0
    requires forall i :: 0 <= i < |xs| ==> lo <= xs[i] <= hi
    ensures lo as real <= RoundedRating(xs) <= hi as real
  {
    SumBounds(xs, lo, hi);
    TenthsWithinBounds(|xs|, Sum(xs), RoundedTenths(xs), lo, hi);
  }

  /** A HALF_UP rounding of 10*sum/n, for n*lo <= sum <= n*hi, lies in [10*lo, 10*hi]. */
  lemma TenthsWithinBounds(n: int, sum: int, t: int, lo: int, hi: int)
    requires n > 0 && n * lo <= sum <= n * hi
    requires IsHalfUp(10 * sum, n, t)
    ensures 10 * lo <= t <= 10 * hi
  {
    assert n * (2 * t - 1) <= 20 * sum <= n * (2 * t + 1);
    assert 20 * sum <= n * (20 * hi) by {
      assert 20 * (n * hi) == n * (20 * hi);
    }
    assert n * (20 * lo) <= 20 * sum by {
      assert 20 * (n * lo) == n * (20 * lo);
    }
    assert n * (20 * hi + 1) == n * (20 * hi) + n;
    assert n * (20 * lo - 1) == n * (20 * lo) - n;
    CancelLt(n, 2 * t - 1, 20 * hi + 1);
    CancelLt(n, 20 * lo - 1, 2 * t + 1);
  }

  /** The worked examples: [3,4,5] gives 4.0, [4,5] gives 4.5, [4,4,5]
      gives 4.3, and no reviews give exactly 0. */
  lemma RoundingExamples()
    ensures RoundedRating([3, 4, 5]) == 4.0
    ensures RoundedRating([4, 5]) == 4.5
    ensures RoundedRating([4, 4, 5]) == 4.3
    ensures RoundedRating([]) == 0.0
  {
    assert [3, 4, 5][..2] == [3, 4] && [3, 4][..1] == [3] && [3][..0] == [];
    assert [4, 5][..1] == [4] && [4][..0] == [];
    assert [4, 4, 5][..2] == [4, 4] && [4, 4][..1] == [4];
  }
}
