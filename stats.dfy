/**
 * Population statistics over a list of reals: the mean and the volatility (population standard
 * deviation) that the stock exchange and the result merge report. The square root is a
 * parameter: the model states everything about the variance it is applied to.
 */
module Stats {
  import opened Wrappers

  /** The only failure: volatility of an empty (or missing) list. */
  datatype StatsError = EmptyList

  function Sum(xs: seq<real>): real {
    if xs == [] then 0.0 else Sum(xs[..|xs| - 1]) + xs[|xs| - 1]
  }

  function Mean(xs: seq<real>): real
    requires xs != []
  {
    Sum(xs) / |xs| as real
  }

  /** The sum of squared deviations of the values from `m`. */
  function SquaredDeviations(xs: seq<real>, m: real): real {
    if xs == [] then 0.0
    else SquaredDeviations(xs[..|xs| - 1], m) + (xs[|xs| - 1] - m) * (xs[|xs| - 1] - m)
  }

  /** Population variance: the mean squared deviation from the mean, dividing by n (not n - 1). */
  function Variance(xs: seq<real>): real
    requires xs != []
  {
    SquaredDeviations(xs, Mean(xs)) / |xs| as real
  }

  /** The volatility of a list: an error when it is empty, otherwise the square root of its
      population variance. */
  function Volatility(xs: seq<real>, sqrt: real -> real): Outcome<real, StatsError> {
    if xs == [] then Err(EmptyList) else Ok(sqrt(Variance(xs)))
  }

  lemma SumStep(xs: seq<real>, i: nat)
    requires i < |xs|
    ensures Sum(xs[..i + 1]) == Sum(xs[..i]) + xs[i]
  {
    assert xs[..i + 1][..i] == xs[..i];
  }

  lemma SquaredDeviationsStep(xs: seq<real>, m: real, i: nat)
    requires i < |xs|
    ensures SquaredDeviations(xs[..i + 1], m) == SquaredDeviations(xs[..i], m) + (xs[i] - m) * (xs[i] - m)
  {
    assert xs[..i + 1][..i] == xs[..i];
  }

  /** The accumulation loop of `calculateMean`: sum the values, divide by their count. */
  method CalculateMean(values: seq<real>) returns (mean: real)
    requires values != []
    ensures mean == Mean(values)
  {
    var sum := 0.0;
    var i := 0;
    while i < |values|
      invariant 0 <= i <= |values|
      invariant sum == Sum(values[..i])
    {
      SumStep(values, i);
      sum := sum + values[i];
      i := i + 1;
    }
    assert values[..|values|] == values;
    mean := sum / |values| as real;
  }

  /** `calculateVolatility`: raises on an empty list, otherwise accumulates the squared
      deviations from the mean, divides by the count and takes the square root. */
  method CalculateVolatility(values: seq<real>, sqrt: real -> real) returns (r: Outcome<real, StatsError>)
    ensures r == Volatility(values, sqrt)
  {
    if |values| == 0 {
      return Err(EmptyList);
    }
    var mean := CalculateMean(values);
    var variance := 0.0;
    var i := 0;
    while i < |values|
      invariant 0 <= i <= |values|
      invariant variance == SquaredDeviations(values[..i], mean)
    {
      SquaredDeviationsStep(values, mean, i);
      variance := variance + (values[i] - mean) * (values[i] - mean);
      i := i + 1;
    }
    assert values[..|values|] == values;
    variance := variance / |values| as real;
    return Ok(sqrt(variance));
  }

  /** Squared deviations are never negative. */
  lemma {:induction false} SquaredDeviationsNonNegative(xs: seq<real>, m: real)
    ensures SquaredDeviations(xs, m) >= 0.0
  {
    if xs != [] {
      SquaredDeviationsNonNegative(xs[..|xs| - 1], m);
      var d := xs[|xs| - 1] - m;
      assert d * d >= 0.0;
    }
  }

  /** The population variance is never negative, so the volatility is the square root of a
      non-negative number. */
  lemma VarianceNonNegative(xs: seq<real>)
    requires xs != []
    ensures Variance(xs) >= 0.0
  {
    SquaredDeviationsNonNegative(xs, Mean(xs));
  }

  lemma {:induction false} SumConstant(xs: seq<real>, c: real)
    requires forall i | 0 <= i < |xs| :: xs[i] == c
    ensures Sum(xs) == |xs| as real * c
  {
    if xs != [] {
      var prefix := xs[..|xs| - 1];
      SumConstant(prefix, c);
      assert (|prefix| as real + 1.0) * c == |prefix| as real * c + c;
    }
  }

  lemma {:induction false} SquaredDeviationsConstant(xs: seq<real>, c: real)
    requires forall i | 0 <= i < |xs| :: xs[i] == c
    ensures SquaredDeviations(xs, c) == 0.0
  {
    if xs != [] {
      SquaredDeviationsConstant(xs[..|xs| - 1], c);
    }
  }

  /** A series that never moves has mean equal to its value, zero variance, and so the
      volatility of a zero variance, whatever the square root. */
  lemma ConstantSeriesHasZeroVariance(xs: seq<real>, c: real, sqrt: real -> real)
    requires xs != [] && forall i | 0 <= i < |xs| :: xs[i] == c
    ensures Mean(xs) == c
    ensures Variance(xs) == 0.0
    ensures Volatility(xs, sqrt) == Ok(sqrt(0.0))
  {
    SumConstant(xs, c);
    assert Sum(xs) / |xs| as real == c;
    SquaredDeviationsConstant(xs, c);
  }

  /** The variance divides by n, not n - 1: for the values 1 and 3 it is 1 (a sample
      variance would give 2). */
  lemma PopulationVariance()
    ensures Mean([1.0, 3.0]) == 2.0
    ensures Variance([1.0, 3.0]) == 1.0
  {
    assert [1.0, 3.0][..1] == [1.0];
    assert [1.0][..0] == [];
  }
}
