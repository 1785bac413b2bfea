/** Finite sums over sequences of reals: the arithmetic every ANOVA quantity is
    built from.  Each sum is defined on the last element, in the order a
    `foreach` loop accumulates it. */
module Sums {

  /** v raised to the power p, for the three powers the sums of squares need
      (p = 0 counts, p = 1 totals, p = 2 sums of squares). */
  function Pow(v: real, p: nat): real
    requires p <= 2
  {
    if p == 0 then 1.0 else if p == 1 then v else v * v
  }

  /** The sum of v^p over the values. */
  function PowerSum(vs: seq<real>, p: nat): real
    requires p <= 2
    decreases |vs|
  {
    if vs == [] then 0.0 else PowerSum(vs[..|vs| - 1], p) + Pow(vs[|vs| - 1], p)
  }

  /** PHP's `array_sum`. */
  function Sum(vs: seq<real>): real
  {
    PowerSum(vs, 1)
  }

  /** The arithmetic mean `array_sum($vs) / count($vs)`. */
  function Mean(vs: seq<real>): real
    requires |vs| > 0
  {
    Sum(vs) / (|vs| as real)
  }

  /** The sum of squared deviations from the centre c, `Σ (v - c)²`. */
  function SqDev(vs: seq<real>, c: real): real
    decreases |vs|
  {
    if vs == [] then 0.0 else SqDev(vs[..|vs| - 1], c) + (vs[|vs| - 1] - c) * (vs[|vs| - 1] - c)
  }

  /** The zeroth power sum counts the values. */
  lemma {:induction false} PowerSumCount(vs: seq<real>)
    ensures PowerSum(vs, 0) == |vs| as real
  {
    if vs != [] {
      PowerSumCount(vs[..|vs| - 1]);
    }
  }

  /** Power sums split over a concatenation. */
  lemma {:induction false} PowerSumAppend(a: seq<real>, b: seq<real>, p: nat)
    requires p <= 2
    ensures PowerSum(a + b, p) == PowerSum(a, p) + PowerSum(b, p)
  {
    if b != [] {
      assert (a + b)[..|a + b| - 1] == a + b[..|b| - 1];
      PowerSumAppend(a, b[..|b| - 1], p);
    } else {
      assert a + b == a;
    }
  }

  /** `q - 2cs + nc²`: the expansion of `Σ (v - c)²` from the power sums. */
  function Expansion(q: real, s: real, n: real, c: real): real
  {
    q - 2.0 * c * s + n * c * c
  }

  /** `Σ (v - c)² = Σ v² - 2c Σ v + n c²`. */
  lemma {:induction false} SqDevExpand(vs: seq<real>, c: real)
    ensures SqDev(vs, c) == Expansion(PowerSum(vs, 2), Sum(vs), |vs| as real, c)
  {
    if vs != [] {
      var init, v := vs[..|vs| - 1], vs[|vs| - 1];
      SqDevExpand(init, c);
      ExpansionLast(vs, c);
    }
  }

  /** The expansion over the values is the one over all but the last value
      plus the last value's `(v - c)²`. */
  lemma ExpansionLast(vs: seq<real>, c: real)
    requires vs != []
    ensures var init, v := vs[..|vs| - 1], vs[|vs| - 1];
      Expansion(PowerSum(vs, 2), Sum(vs), |vs| as real, c)
      == Expansion(PowerSum(init, 2), Sum(init), |init| as real, c) + (v - c) * (v - c)
  {
    var init, v := vs[..|vs| - 1], vs[|vs| - 1];
    LastTerms(vs);
    ExpandStep(PowerSum(init, 2), Sum(init), |init| as real, v, c);
  }

  /** The last value's part of each power sum and of the count. */
  lemma LastTerms(vs: seq<real>)
    requires vs != []
    ensures var init, v := vs[..|vs| - 1], vs[|vs| - 1];
      && Sum(vs) == Sum(init) + v
      && PowerSum(vs, 2) == PowerSum(init, 2) + v * v
      && |vs| as real == |init| as real + 1.0
  {
  }

  /** One step of SqDevExpand: adding v to the values adds `(v - c)²`. */
  lemma ExpandStep(q: real, s: real, n: real, v: real, c: real)
    ensures Expansion(q, s, n, c) + (v - c) * (v - c) == Expansion(q + v * v, s + v, n + 1.0, c)
  {
  }

  /** Around its own mean, the squared deviations are `Σ v² - (Σ v)² / n`. */
  lemma {:induction false} SqDevAroundMean(vs: seq<real>)
    requires |vs| > 0
    ensures SqDev(vs, Mean(vs)) == PowerSum(vs, 2) - Sum(vs) * Sum(vs) / (|vs| as real)
  {
    SqDevExpand(vs, Mean(vs));
    CentredAlgebra(|vs| as real, Sum(vs), PowerSum(vs, 2), Mean(vs));
  }

  /** `n (mean - c)²`: how far the values' mean lies from the centre c, weighted by their count. */
  function Spread(vs: seq<real>, c: real): real
    requires |vs| > 0
  {
    (|vs| as real) * (Mean(vs) - c) * (Mean(vs) - c)
  }

  /** A spread is never negative. */
  lemma SpreadNonNegative(vs: seq<real>, c: real)
    requires |vs| > 0
    ensures Spread(vs, c) >= 0.0
  {
    var n, d := |vs| as real, Mean(vs) - c;
    assert n * d * d == n * (d * d);
    assert d * d >= 0.0;
  }

  /** The one-group decomposition: the squared deviations from any centre c are
      those from the group's mean plus `n (mean - c)²`. */
  lemma {:induction false} SqDevShift(vs: seq<real>, c: real)
    requires |vs| > 0
    ensures SqDev(vs, c) == SqDev(vs, Mean(vs)) + Spread(vs, c)
  {
    SqDevExpand(vs, c);
    SqDevExpand(vs, Mean(vs));
    ExpansionShift(vs, c);
  }

  /** With m = s / n: `q - 2 m s + n m² = q - s² / n`. */
  lemma CentredAlgebra(n: real, s: real, q: real, m: real)
    requires n > 0.0 && m == s / n
    ensures Expansion(q, s, n, m) == q - s * s / n
  {
    assert n * m == s;
    assert n * m * m == s * m;
    assert s * s / n == s * m by {
      assert (s * m) * n == s * (m * n);
    }
  }

  /** The mean times the count is the total. */
  lemma MeanTimesCount(vs: seq<real>)
    requires |vs| > 0
    ensures (|vs| as real) * Mean(vs) == Sum(vs)
  {
  }

  /** Moving the centre of the expansion from the mean to c adds the spread. */
  lemma ExpansionShift(vs: seq<real>, c: real)
    requires |vs| > 0
    ensures Expansion(PowerSum(vs, 2), Sum(vs), |vs| as real, c)
         == Expansion(PowerSum(vs, 2), Sum(vs), |vs| as real, Mean(vs)) + Spread(vs, c)
  {
    MeanTimesCount(vs);
    ShiftAlgebra(|vs| as real, Sum(vs), PowerSum(vs, 2), Mean(vs), c);
  }

  /** With n m = s, the expansions of `Σ (v - c)²` and `Σ (v - m)²` differ by `n (m - c)²`. */
  lemma ShiftAlgebra(n: real, s: real, q: real, m: real, c: real)
    requires n * m == s
    ensures Expansion(q, s, n, c) == Expansion(q, s, n, m) + n * (m - c) * (m - c)
  {
    calc {
      n * (m - c) * (m - c);
      n * m * m - 2.0 * c * (n * m) + n * c * c;
      n * m * m - 2.0 * c * s + n * c * c;
    }
  }

  /** Sums of squared deviations are never negative. */
  lemma {:induction false} SqDevNonNegative(vs: seq<real>, c: real)
    ensures SqDev(vs, c) >= 0.0
  {
    if vs != [] {
      var d := vs[|vs| - 1] - c;
      SqDevNonNegative(vs[..|vs| - 1], c);
      assert d * d >= 0.0;
    }
  }

  /** Squared deviations split over a concatenation. */
  lemma {:induction false} SqDevAppend(a: seq<real>, b: seq<real>, c: real)
    ensures SqDev(a + b, c) == SqDev(a, c) + SqDev(b, c)
    decreases |b|
  {
    if b != [] {
      assert (a + b)[..|a + b| - 1] == a + b[..|b| - 1];
      SqDevAppend(a, b[..|b| - 1], c);
    } else {
      assert a + b == a;
    }
  }

  /** Squared deviations depend on the values only through their count, sum and
      sum of squares. */
  lemma SqDevByPowerSums(a: seq<real>, b: seq<real>, c: real)
    requires |a| == |b| && Sum(a) == Sum(b) && PowerSum(a, 2) == PowerSum(b, 2)
    ensures SqDev(a, c) == SqDev(b, c)
  {
    SqDevExpand(a, c);
    SqDevExpand(b, c);
  }
}
