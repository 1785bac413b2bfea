/** One-way analysis of variance over one question's answers, grouped by one
    categorical key (`calculate_anova`). */
module OneWayAnova {
  import opened Sums
  import opened Records
  import opened Wrappers
  import opened Grouping

  /** The array `calculate_anova` returns. */
  datatype AnovaResult = AnovaResult(
    dfBetween: int, ssBetween: real, msBetween: real,
    dfWithin: int, ssWithin: real, msWithin: real,
    fValue: real, significanceLevel: real,
    groups: seq<Group>)

  /** `Σ n_g (mean_g - c)²` over the groups; an empty group adds nothing. */
  function SsBetween(gs: seq<Group>, c: real): real
    decreases |gs|
  {
    if gs == [] then 0.0
    else
      var vs := gs[|gs| - 1].values;
      SsBetween(gs[..|gs| - 1], c) + if |vs| == 0 then 0.0 else Spread(vs, c)
  }

  /** `Σ_g Σ_v (v - mean_g)²` over the groups; an empty group adds nothing. */
  function SsWithin(gs: seq<Group>): real
    decreases |gs|
  {
    if gs == [] then 0.0
    else
      var vs := gs[|gs| - 1].values;
      SsWithin(gs[..|gs| - 1]) + if |vs| == 0 then 0.0 else SqDev(vs, Mean(vs))
  }

  /** The fixed thresholds of the source: above 4.0 is 0.01, above 2.5 is 0.05. */
  function Significance(f: real): real
  {
    if f > 4.0 then 0.01 else if f > 2.5 then 0.05 else 0.0
  }

  /** The result assembled from the sums of squares and degrees of freedom:
      the mean squares, F (0 when `ms_within` is not positive) and the level. */
  function FromSums(ssBetween: real, ssWithin: real, dfBetween: int, dfWithin: int, groups: seq<Group>): AnovaResult
    requires dfBetween > 0 && dfWithin > 0
  {
    var msBetween := ssBetween / (dfBetween as real);
    var msWithin := ssWithin / (dfWithin as real);
    var f := if msWithin > 0.0 then msBetween / msWithin else 0.0;
    AnovaResult(dfBetween, ssBetween, msBetween, dfWithin, ssWithin, msWithin, f, Significance(f), groups)
  }

  /** The analysis of the retained groups around the grand mean: None when
      fewer than two groups or three values remain or a degree of freedom is
      not positive. */
  function Analyse(groups: seq<Group>, grandMean: real): Option<AnovaResult>
  {
    var k, n := |groups|, Count(groups);
    if k < 2 || n < 3 then None
    else
      var dfBetween, dfWithin := k - 1, n - k;
      if dfBetween <= 0 || dfWithin <= 0 then None
      else Some(FromSums(SsBetween(groups, grandMean), SsWithin(groups), dfBetween, dfWithin, groups))
  }

  /** With two groups and positive degrees of freedom, the analysis is the
      result assembled from the two sums of squares. */
  lemma AnalyseSome(groups: seq<Group>, grandMean: real)
    requires |groups| >= 2 && Count(groups) > |groups|
    ensures Analyse(groups, grandMean)
         == Some(FromSums(SsBetween(groups, grandMean), SsWithin(groups), |groups| - 1, Count(groups) - |groups|, groups))
  {
  }

  /** What `calculate_anova` returns, as a value: None for its `null`.  The
      grand mean is taken over every observed value. */
  function OneWay(rows: seq<Row>, groupKey: string, valueKey: string): Option<AnovaResult>
  {
    var all := AllValues(rows, groupKey, valueKey);
    Analyse(Retain(GroupBy(rows, groupKey, valueKey)), if |all| == 0 then 0.0 else Mean(all))
  }

  /** With fewer than two retained groups, or fewer than three values in
      them, there is no result. */
  lemma OneWayFew(rows: seq<Row>, groupKey: string, valueKey: string)
    requires var groups := Retain(GroupBy(rows, groupKey, valueKey));
      |groups| < 2 || Count(groups) < 3
    ensures OneWay(rows, groupKey, valueKey) == None
  {
    var all := AllValues(rows, groupKey, valueKey);
    assert OneWay(rows, groupKey, valueKey)
        == Analyse(Retain(GroupBy(rows, groupKey, valueKey)), if |all| == 0 then 0.0 else Mean(all));
  }

  /** Once some value was observed, the result is the analysis of the
      retained groups around the grand mean of every observed value. */
  lemma OneWayAround(rows: seq<Row>, groupKey: string, valueKey: string, grandMean: real)
    requires |AllValues(rows, groupKey, valueKey)| > 0 && grandMean == Mean(AllValues(rows, groupKey, valueKey))
    ensures OneWay(rows, groupKey, valueKey) == Analyse(Retain(GroupBy(rows, groupKey, valueKey)), grandMean)
  {
  }

  /** The nested loop of `calculate_anova` that accumulates `ss_between`
      and `ss_within` around the grand mean. */
  method SumsOfSquares(groups: seq<Group>, grandMean: real) returns (ssBetween: real, ssWithin: real)
    ensures ssBetween == SsBetween(groups, grandMean)
    ensures ssWithin == SsWithin(groups)
  {
    ssBetween := 0.0;
    ssWithin := 0.0;
    for i := 0 to |groups|
      invariant ssBetween == SsBetween(groups[..i], grandMean)
      invariant ssWithin == SsWithin(groups[..i])
    {
      assert groups[..i + 1][..i] == groups[..i];
      var values := groups[i].values;
      var nGroup := |values|;
      if nGroup == 0 {
        continue;
      }
      var groupMean := Sum(values) / (nGroup as real);
      assert groupMean == Mean(values);
      ssBetween := ssBetween + (nGroup as real) * (groupMean - grandMean) * (groupMean - grandMean);
      assert ssBetween == SsBetween(groups[..i], grandMean) + Spread(values, grandMean);
      ghost var before := ssWithin;
      for j := 0 to nGroup
        invariant ssWithin == before + SqDev(values[..j], groupMean)
      {
        assert values[..j + 1][..j] == values[..j];
        var d := values[j] - groupMean;
        assert SqDev(values[..j + 1], groupMean) == SqDev(values[..j], groupMean) + d * d;
        ssWithin := ssWithin + d * d;
      }
      assert values[..nGroup] == values;
    }
    assert groups[..|groups|] == groups;
  }

  /** The tail of `calculate_anova`: the mean squares, F and the significance
      level by the two fixed thresholds, assembled into the returned array. */
  method Summarise(ssBetween: real, ssWithin: real, dfBetween: int, dfWithin: int, groups: seq<Group>)
    returns (r: AnovaResult)
    requires dfBetween > 0 && dfWithin > 0
    ensures r == FromSums(ssBetween, ssWithin, dfBetween, dfWithin, groups)
  {
    var msBetween := ssBetween / (dfBetween as real);
    var msWithin := ssWithin / (dfWithin as real);
    var fValue := if msWithin > 0.0 then msBetween / msWithin else 0.0;

    var significanceLevel := 0.0;
    if fValue > 2.5 {
      significanceLevel := 0.05;
    }
    if fValue > 4.0 {
      significanceLevel := 0.01;
    }
    assert significanceLevel == Significance(fValue);
    r := AnovaResult(dfBetween, ssBetween, msBetween, dfWithin, ssWithin, msWithin,
                     fValue, significanceLevel, groups);
  }

  /** The first loop of `calculate_anova`: `$groups[$name][] = $value` and
      `$all_values[] = $value` for every row where both keys are set. */
  method CollectGroups(data: seq<Row>, groupKey: string, valueKey: string)
    returns (groups: seq<Group>, allValues: seq<real>)
    ensures groups == GroupBy(data, groupKey, valueKey)
    ensures allValues == AllValues(data, groupKey, valueKey)
  {
    groups := [];
    allValues := [];
    for i := 0 to |data|
      invariant groups == GroupBy(data[..i], groupKey, valueKey)
      invariant allValues == AllValues(data[..i], groupKey, valueKey)
    {
      assert data[..i + 1][..i] == data[..i];
      var row := data[i];
      if groupKey !in row.attrs || valueKey !in row.answers {
        continue;
      }
      var groupName := row.attrs[groupKey];
      var value := row.answers[valueKey] as real;
      groups := AddValue(groups, groupName, value);
      allValues := allValues + [value];
    }
    assert data[..|data|] == data;
  }

  /** The `unset` loop: drop the groups with fewer than two values, keeping
      the order of the others. */
  method DropSmallGroups(groups: seq<Group>) returns (kept: seq<Group>)
    ensures kept == Retain(groups)
  {
    kept := [];
    for i := 0 to |groups|
      invariant kept == Retain(groups[..i])
    {
      assert groups[..i + 1][..i] == groups[..i];
      if |groups[i].values| >= 2 {
        kept := kept + [groups[i]];
      }
    }
    assert groups[..|groups|] == groups;
  }

  /** `$n_total`: the number of values in the groups. */
  method TotalCount(groups: seq<Group>) returns (nTotal: int)
    ensures nTotal == Count(groups)
  {
    nTotal := 0;
    for i := 0 to |groups|
      invariant nTotal == Count(groups[..i])
    {
      assert groups[..i + 1][..i] == groups[..i];
      nTotal := nTotal + |groups[i].values|;
    }
    assert groups[..|groups|] == groups;
  }

  /** `calculate_anova($data, $group_key, $value_key)`. */
  method CalculateAnova(data: seq<Row>, groupKey: string, valueKey: string) returns (result: Option<AnovaResult>)
    ensures result == OneWay(data, groupKey, valueKey)
  {
    var grouped, allValues := CollectGroups(data, groupKey, valueKey);
    var groups := DropSmallGroups(grouped);
    var k := |groups|;
    var nTotal := TotalCount(groups);
    if k < 2 || nTotal < 3 {
      OneWayFew(data, groupKey, valueKey);
      return None;
    }

    assert |allValues| > 0 && nTotal >= 2 * k by {
      GroupByCoversAllValues(data, groupKey, valueKey, 0);
      RetainCount(grouped);
    }
    var grandMean := Mean(allValues);

    var ssBetween, ssWithin := SumsOfSquares(groups, grandMean);

    var dfBetween := k - 1;
    var dfWithin := nTotal - k;
    if dfBetween <= 0 || dfWithin <= 0 {
      return None;
    }
    var r := Summarise(ssBetween, ssWithin, dfBetween, dfWithin, groups);
    OneWayAround(data, groupKey, valueKey, grandMean);
    AnalyseSome(groups, grandMean);
    return Some(r);
  }

  // ---------------------------------------------------------------------
  // Properties of the one-way result

  /** The significance level is the tighter of the two fixed thresholds that
      F exceeds, and 0 when it exceeds neither. */
  lemma SignificanceLevels(f: real)
    ensures Significance(f) == 0.01 <==> f > 4.0
    ensures Significance(f) == 0.05 <==> 2.5 < f <= 4.0
    ensures Significance(f) == 0.0 <==> f <= 2.5
  {
  }

  /** There is no result exactly when fewer than two groups of two or more
      values remain: with two such groups there are at least four values, so
      the `n_total < 3` and degrees-of-freedom guards never fire on their own. */
  lemma OneWayNoneIff(rows: seq<Row>, groupKey: string, valueKey: string)
    ensures OneWay(rows, groupKey, valueKey).None? <==> |Retain(GroupBy(rows, groupKey, valueKey))| < 2
  {
    RetainCount(GroupBy(rows, groupKey, valueKey));
  }

  /** The returned groups are exactly the groups with at least two values, in
      first-seen order, with distinct names. */
  lemma OneWayGroups(rows: seq<Row>, groupKey: string, valueKey: string)
    requires OneWay(rows, groupKey, valueKey).Some?
    ensures var r := OneWay(rows, groupKey, valueKey).value;
      && r.groups == Retain(GroupBy(rows, groupKey, valueKey))
      && (forall g :: g in r.groups ==> |g.values| >= 2)
      && (forall g :: g in r.groups <==> g in GroupBy(rows, groupKey, valueKey) && |g.values| >= 2)
      && DistinctNames(r.groups)
  {
    GroupByMeaning(rows, groupKey, valueKey);
    RetainDistinct(GroupBy(rows, groupKey, valueKey));
    RetainMembers(GroupBy(rows, groupKey, valueKey));
  }

  /** Degrees of freedom: `k - 1` between, `n - k` within, together `n - 1`. */
  lemma OneWayDegreesOfFreedom(rows: seq<Row>, groupKey: string, valueKey: string)
    requires OneWay(rows, groupKey, valueKey).Some?
    ensures var r := OneWay(rows, groupKey, valueKey).value;
      var k, n := |r.groups|, Count(r.groups);
      && r.dfBetween == k - 1 >= 1
      && r.dfWithin == n - k >= k
      && r.dfBetween + r.dfWithin == n - 1
  {
    RetainCount(GroupBy(rows, groupKey, valueKey));
  }

  /** Over any groups and any centre c, the squared deviations of all values
      from c split into the within-group and between-group parts. */
  lemma {:induction false} GroupsDecomposition(gs: seq<Group>, c: real)
    ensures SqDev(Flatten(gs), c) == SsWithin(gs) + SsBetween(gs, c)
    decreases |gs|
  {
    if gs != [] {
      var init, vs := gs[..|gs| - 1], gs[|gs| - 1].values;
      GroupsDecomposition(init, c);
      assert Flatten(gs) == Flatten(init) + vs;
      SqDevAppend(Flatten(init), vs, c);
      if |vs| > 0 {
        assert SsWithin(gs) == SsWithin(init) + SqDev(vs, Mean(vs));
        assert SsBetween(gs, c) == SsBetween(init, c) + Spread(vs, c);
        SqDevShift(vs, c);
      } else {
        assert vs == [];
      }
    }
  }

  /** `ss_between + ss_within` is the sum of squared deviations of the
      retained values from the grand mean, where the grand mean is taken over
      all observed values (dropped singleton groups included). */
  lemma OneWayDecomposition(rows: seq<Row>, groupKey: string, valueKey: string)
    requires OneWay(rows, groupKey, valueKey).Some?
    ensures var r, all := OneWay(rows, groupKey, valueKey).value, AllValues(rows, groupKey, valueKey);
      |all| > 0 && r.ssBetween + r.ssWithin == SqDev(Flatten(r.groups), Mean(all))
  {
    var r := OneWay(rows, groupKey, valueKey).value;
    GroupByCoversAllValues(rows, groupKey, valueKey, 0);
    RetainCount(GroupBy(rows, groupKey, valueKey));
    GroupsDecomposition(r.groups, Mean(AllValues(rows, groupKey, valueKey)));
  }

  /** When no group was dropped, `ss_between + ss_within` is the total sum of
      squares of all observed values around their mean. */
  lemma OneWayTotalWhenNothingDropped(rows: seq<Row>, groupKey: string, valueKey: string)
    requires OneWay(rows, groupKey, valueKey).Some?
    requires forall g :: g in GroupBy(rows, groupKey, valueKey) ==> |g.values| >= 2
    ensures var r := OneWay(rows, groupKey, valueKey).value;
      var all := AllValues(rows, groupKey, valueKey);
      |all| > 0 && r.ssBetween + r.ssWithin == SqDev(all, Mean(all))
  {
    var grouped := GroupBy(rows, groupKey, valueKey);
    var all := AllValues(rows, groupKey, valueKey);
    RetainAll(grouped);
    OneWayDecomposition(rows, groupKey, valueKey);
    GroupByCoversAllValues(rows, groupKey, valueKey, 1);
    GroupByCoversAllValues(rows, groupKey, valueKey, 2);
    CountFlatten(grouped);
    SqDevByPowerSums(Flatten(grouped), all, Mean(all));
  }

  /** Because the grand mean includes the values of dropped singleton groups,
      `ss_between` exceeds the between-group sum of squares around the retained
      values' own mean by `n (mean_retained - grand_mean)²`. */
  lemma OneWayBetweenShift(rows: seq<Row>, groupKey: string, valueKey: string)
    requires OneWay(rows, groupKey, valueKey).Some?
    ensures var r, all := OneWay(rows, groupKey, valueKey).value, AllValues(rows, groupKey, valueKey);
      var kept := Flatten(r.groups);
      |kept| > 0 && |all| > 0 &&
      var grand := Mean(all);
      r.ssBetween == SsBetween(r.groups, Mean(kept)) + Spread(kept, grand)
  {
    var r := OneWay(rows, groupKey, valueKey).value;
    GroupByCoversAllValues(rows, groupKey, valueKey, 0);
    RetainCount(GroupBy(rows, groupKey, valueKey));
    var kept, grand := Flatten(r.groups), Mean(AllValues(rows, groupKey, valueKey));
    CountFlatten(r.groups);
    GroupsDecomposition(r.groups, grand);
    GroupsDecomposition(r.groups, Mean(kept));
    SqDevShift(kept, grand);
  }

  /** F is `ms_between / ms_within` when `ms_within > 0` and 0 otherwise; the
      sums of squares, mean squares and F are never negative; the significance
      level follows the fixed thresholds. */
  lemma OneWayFValue(rows: seq<Row>, groupKey: string, valueKey: string)
    requires OneWay(rows, groupKey, valueKey).Some?
    ensures var r := OneWay(rows, groupKey, valueKey).value;
      && r.msBetween == r.ssBetween / (r.dfBetween as real)
      && r.msWithin == r.ssWithin / (r.dfWithin as real)
      && r.fValue == (if r.msWithin > 0.0 then r.msBetween / r.msWithin else 0.0)
      && r.ssBetween >= 0.0 && r.ssWithin >= 0.0 && r.msBetween >= 0.0 && r.msWithin >= 0.0
      && r.fValue >= 0.0
      && (r.significanceLevel == 0.01 <==> r.fValue > 4.0)
      && (r.significanceLevel == 0.05 <==> 2.5 < r.fValue <= 4.0)
      && (r.significanceLevel == 0.0 <==> r.fValue <= 2.5)
  {
    var grouped := GroupBy(rows, groupKey, valueKey);
    var all := AllValues(rows, groupKey, valueKey);
    var groups := Retain(grouped);
    var grand := if |all| == 0 then 0.0 else Mean(all);
    RetainCount(grouped);
    AnalyseSome(groups, grand);
    SsNonNegative(groups, grand);
    FromSumsMeaning(SsBetween(groups, grand), SsWithin(groups), |groups| - 1, Count(groups) - |groups|, groups);
  }

  /** The result assembled from non-negative sums of squares and positive
      degrees of freedom: the mean squares are the quotients, F is their
      ratio (0 when `ms_within` is 0), everything is non-negative and the
      level follows the thresholds. */
  lemma FromSumsMeaning(ssBetween: real, ssWithin: real, dfBetween: int, dfWithin: int, groups: seq<Group>)
    requires dfBetween > 0 && dfWithin > 0 && ssBetween >= 0.0 && ssWithin >= 0.0
    ensures var r := FromSums(ssBetween, ssWithin, dfBetween, dfWithin, groups);
      && r.ssBetween == ssBetween && r.ssWithin == ssWithin
      && r.dfBetween == dfBetween && r.dfWithin == dfWithin
      && r.msBetween == ssBetween / (dfBetween as real)
      && r.msWithin == ssWithin / (dfWithin as real)
      && r.fValue == (if r.msWithin > 0.0 then r.msBetween / r.msWithin else 0.0)
      && r.msBetween >= 0.0 && r.msWithin >= 0.0 && r.fValue >= 0.0
      && (r.significanceLevel == 0.01 <==> r.fValue > 4.0)
      && (r.significanceLevel == 0.05 <==> 2.5 < r.fValue <= 4.0)
      && (r.significanceLevel == 0.0 <==> r.fValue <= 2.5)
  {
    var r := FromSums(ssBetween, ssWithin, dfBetween, dfWithin, groups);
    NonNegativeQuotient(ssBetween, dfBetween as real);
    NonNegativeQuotient(ssWithin, dfWithin as real);
    if r.msWithin > 0.0 {
      NonNegativeQuotient(r.msBetween, r.msWithin);
    }
    SignificanceLevels(r.fValue);
  }

  lemma NonNegativeQuotient(a: real, b: real)
    requires a >= 0.0 && b > 0.0
    ensures a / b >= 0.0
  {
  }

  /** Both sums of squares are non-negative. */
  lemma SsNonNegative(gs: seq<Group>, c: real)
    ensures SsBetween(gs, c) >= 0.0 && SsWithin(gs) >= 0.0
  {
    SsBetweenNonNegative(gs, c);
    SsWithinNonNegative(gs);
  }

  lemma {:induction false} SsBetweenNonNegative(gs: seq<Group>, c: real)
    ensures SsBetween(gs, c) >= 0.0
    decreases |gs|
  {
    if gs != [] {
      var vs := gs[|gs| - 1].values;
      SsBetweenNonNegative(gs[..|gs| - 1], c);
      if |vs| > 0 {
        SpreadNonNegative(vs, c);
      }
    }
  }

  lemma {:induction false} SsWithinNonNegative(gs: seq<Group>)
    ensures SsWithin(gs) >= 0.0
    decreases |gs|
  {
    if gs != [] {
      var vs := gs[|gs| - 1].values;
      SsWithinNonNegative(gs[..|gs| - 1]);
      if |vs| > 0 {
        SqDevNonNegative(vs, Mean(vs));
      }
    }
  }

}
