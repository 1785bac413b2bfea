/** Tukey's HSD post-hoc comparison over the groups a one-way ANOVA kept
    (`calculate_tukey_hsd`).  The honest significant difference involves a
    square root; the model keeps its square, `hsdSquared`, and decides
    significance by comparing squares, which for non-negative numbers is the
    same as comparing the numbers (lemma `SignificantIffExceeds`). */
module TukeyHsd {
  import opened Sums
  import opened Wrappers
  import opened Grouping
  import opened PairOrder

  /** The fixed studentized range value of the source. */
  const QCritical: real := 3.63

  /** One entry of `$comparisons`: the two group names, the absolute
      difference of their means, the square of `hsd`, and whether the
      difference exceeds `hsd`. */
  datatype Comparison = Comparison(group1: string, group2: string, diff: real, hsdSquared: real, significant: bool)

  /** `$means[$name]`: a group's mean and size. */
  datatype GroupMean = GroupMean(mean: real, n: nat)

  function Abs(x: real): (r: real)
    ensures r >= 0.0 && (r == x || r == -x)
  {
    if x < 0.0 then -x else x
  }

  /** Every group has a value: `calculate_tukey_hsd` divides by each count. */
  predicate NonEmptyGroups(groups: seq<Group>)
  {
    forall i :: 0 <= i < |groups| ==> |groups[i].values| > 0
  }

  /** `hsd²` for two group sizes: `3.63² · ms · (1/n1 + 1/n2) / 2`. */
  function HsdSquared(ms: real, n1: nat, n2: nat): real
    requires n1 > 0 && n2 > 0
  {
    QCritical * QCritical * (ms * (1.0 / (n1 as real) + 1.0 / (n2 as real)) / 2.0)
  }

  /** A group's `$means` entry. */
  function MeanOf(g: Group): GroupMean
    requires |g.values| > 0
  {
    GroupMean(Mean(g.values), |g.values|)
  }

  /** One `$comparisons[]` entry, from the two names and their `$means` entries. */
  function PairEntry(name1: string, name2: string, m1: GroupMean, m2: GroupMean, ms: real): Comparison
    requires m1.n > 0 && m2.n > 0
  {
    var hsdSquared := HsdSquared(ms, m1.n, m2.n);
    var diff := Abs(m1.mean - m2.mean);
    Comparison(name1, name2, diff, hsdSquared, diff * diff > hsdSquared)
  }

  /** The comparison of two groups. */
  function Compare(g1: Group, g2: Group, ms: real): Comparison
    requires |g1.values| > 0 && |g2.values| > 0
  {
    PairEntry(g1.name, g2.name, MeanOf(g1), MeanOf(g2), ms)
  }

  /** The comparisons of the given pairs of groups, in the pairs' order. */
  function Comparisons(groups: seq<Group>, ms: real, ps: seq<(nat, nat)>): seq<Comparison>
    requires NonEmptyGroups(groups) && InRange(ps, |groups|)
    decreases |ps|
  {
    if ps == [] then []
    else
      var (i, j) := ps[|ps| - 1];
      Comparisons(groups, ms, ps[..|ps| - 1]) + [Compare(groups[i], groups[j], ms)]
  }

  /** What `calculate_tukey_hsd` returns, as a value: None for its `null`. */
  function Tukey(groups: seq<Group>, ms: real, df: int): Option<seq<Comparison>>
    requires NonEmptyGroups(groups)
  {
    if |groups| < 2 || ms <= 0.0 then None
    else
      AllPairsInRange(|groups|, |groups|);
      Some(Comparisons(groups, ms, AllPairs(|groups|, |groups|)))
  }

  /** `$means` and `$group_names` as the first loop leaves them: the names in
      group order, each with its group's mean and size. */
  predicate MeansTable(groups: seq<Group>, means: map<string, GroupMean>, groupNames: seq<string>)
    requires NonEmptyGroups(groups)
  {
    && |groupNames| == |groups|
    && (forall m :: 0 <= m < |groups| ==> groupNames[m] == groups[m].name)
    && (forall m :: 0 <= m < |groups| ==> groups[m].name in means)
    && (forall m :: 0 <= m < |groups| ==> means[groups[m].name] == MeanOf(groups[m]))
  }

  /** The entry built from the `$means` table is the comparison of the two groups. */
  lemma EntryFromTable(groups: seq<Group>, means: map<string, GroupMean>, groupNames: seq<string>, ms: real, i: nat, j: nat)
    requires NonEmptyGroups(groups) && MeansTable(groups, means, groupNames) && i < |groups| && j < |groups|
    ensures groupNames[i] in means && groupNames[j] in means
    ensures means[groupNames[i]].n > 0 && means[groupNames[j]].n > 0
    ensures PairEntry(groupNames[i], groupNames[j], means[groupNames[i]], means[groupNames[j]], ms)
         == Compare(groups[i], groups[j], ms)
  {
  }

  /** The first loop of `calculate_tukey_hsd`: each group's mean and size,
      keyed by name, and the names in order. */
  method GroupMeans(groups: seq<Group>) returns (means: map<string, GroupMean>, groupNames: seq<string>)
    requires NonEmptyGroups(groups) && DistinctNames(groups)
    ensures MeansTable(groups, means, groupNames)
  {
    // `$means` is keyed by group name; `array_keys($means)` lists the names in
    // insertion order, which is the groups' order because their names are distinct.
    means := map[];
    groupNames := [];
    for g := 0 to |groups|
      invariant |groupNames| == g
      invariant forall m :: 0 <= m < g ==> groupNames[m] == groups[m].name
      invariant forall m :: 0 <= m < g ==> groups[m].name in means
      invariant forall m :: 0 <= m < g ==> means[groups[m].name] == MeanOf(groups[m])
    {
      var values := groups[g].values;
      assert forall m :: 0 <= m < g ==> groups[m].name != groups[g].name;
      means := means[groups[g].name := GroupMean(Sum(values) / (|values| as real), |values|)];
      groupNames := groupNames + [groups[g].name];
    }
  }

  /** The inner loop's state once it has reached j: the comparisons of the
      pairs `before` and then (i, i+1) .. (i, j-1). */
  predicate RowDone(groups: seq<Group>, msWithin: real, before: seq<(nat, nat)>, i: nat, j: nat,
                    result: seq<Comparison>)
    requires NonEmptyGroups(groups)
  {
    && InRange(before + RowPairs(i, j), |groups|)
    && result == Comparisons(groups, msWithin, before + RowPairs(i, j))
  }

  /** The inner loop of `calculate_tukey_hsd`: group i against every later
      group, appended to the comparisons of the pairs `before`. */
  method CompareRow(groups: seq<Group>, msWithin: real, means: map<string, GroupMean>, groupNames: seq<string>,
                    i: nat, ghost before: seq<(nat, nat)>, comparisons: seq<Comparison>)
    returns (result: seq<Comparison>)
    requires NonEmptyGroups(groups) && InRange(before, |groups|) && i < |groups|
    requires MeansTable(groups, means, groupNames)
    requires comparisons == Comparisons(groups, msWithin, before)
    ensures InRange(before + RowPairs(i, |groups|), |groups|)
    ensures result == Comparisons(groups, msWithin, before + RowPairs(i, |groups|))
  {
    var k := |groups|;
    RowExtend(before, i, i);
    result := comparisons;
    for j: nat := i + 1 to k
      invariant RowDone(groups, msWithin, before, i, j, result)
    {
      result := ComparePair(groups, msWithin, means, groupNames, i, j, before, result);
    }
  }

  /** The body of the inner loop: the entry for groups i and j, built from
      the `$means` table and appended to the comparisons so far. */
  method ComparePair(groups: seq<Group>, msWithin: real, means: map<string, GroupMean>, groupNames: seq<string>,
                     i: nat, j: nat, ghost before: seq<(nat, nat)>, comparisons: seq<Comparison>)
    returns (result: seq<Comparison>)
    requires NonEmptyGroups(groups) && i < j < |groups|
    requires MeansTable(groups, means, groupNames)
    requires RowDone(groups, msWithin, before, i, j, comparisons)
    ensures RowDone(groups, msWithin, before, i, j + 1, result)
  {
    ghost var done := before + RowPairs(i, j);
    RowStep(groups, msWithin, means, groupNames, done, i, j);
    RowExtend(before, i, j);
    var name1, name2 := groupNames[i], groupNames[j];
    var entry := PairEntry(name1, name2, means[name1], means[name2], msWithin);
    result := comparisons + [entry];
  }

  /** `calculate_tukey_hsd($groups, $ms_within, $df_within)`.  The groups
      come from a PHP array, so their names are distinct. */
  method CalculateTukeyHsd(groups: seq<Group>, msWithin: real, dfWithin: int)
    returns (result: Option<seq<Comparison>>)
    requires NonEmptyGroups(groups) && DistinctNames(groups)
    ensures result == Tukey(groups, msWithin, dfWithin)
  {
    var k := |groups|;
    if k < 2 || msWithin <= 0.0 {
      return None;
    }

    var means, groupNames := GroupMeans(groups);

    var comparisons: seq<Comparison> := [];
    for i := 0 to k
      invariant InRange(AllPairs(k, i), k)
      invariant comparisons == Comparisons(groups, msWithin, AllPairs(k, i))
    {
      comparisons := CompareRow(groups, msWithin, means, groupNames, i, AllPairs(k, i), comparisons);
      assert AllPairs(k, i + 1) == AllPairs(k, i) + RowPairs(i, k);
    }
    return Some(comparisons);
  }

  // ---------------------------------------------------------------------
  // Properties of the comparisons

  /** Comparing one more pair appends its comparison. */
  lemma ComparisonsSnoc(groups: seq<Group>, ms: real, ps: seq<(nat, nat)>, i: nat, j: nat)
    requires NonEmptyGroups(groups) && InRange(ps, |groups|) && i < |groups| && j < |groups|
    ensures InRange(ps + [(i, j)], |groups|)
    ensures Comparisons(groups, ms, ps + [(i, j)]) == Comparisons(groups, ms, ps) + [Compare(groups[i], groups[j], ms)]
  {
    assert (ps + [(i, j)])[..|ps|] == ps;
  }

  /** One step of the inner loop: comparing the pair (i, j) next appends
      the entry built from the `$means` table. */
  lemma RowStep(groups: seq<Group>, ms: real, means: map<string, GroupMean>, groupNames: seq<string>,
                done: seq<(nat, nat)>, i: nat, j: nat)
    requires NonEmptyGroups(groups) && MeansTable(groups, means, groupNames) && i < |groups| && j < |groups|
    requires InRange(done, |groups|)
    ensures groupNames[i] in means && groupNames[j] in means
    ensures means[groupNames[i]].n > 0 && means[groupNames[j]].n > 0
    ensures InRange(done + [(i, j)], |groups|)
    ensures Comparisons(groups, ms, done + [(i, j)])
         == Comparisons(groups, ms, done)
            + [PairEntry(groupNames[i], groupNames[j], means[groupNames[i]], means[groupNames[j]], ms)]
  {
    EntryFromTable(groups, means, groupNames, ms, i, j);
    ComparisonsSnoc(groups, ms, done, i, j);
  }

  /** The row of group i, followed up to j, grows by the pair (i, j). */
  lemma RowExtend(before: seq<(nat, nat)>, i: nat, j: nat)
    ensures before + RowPairs(i, i + 1) == before
    ensures i < j ==> before + RowPairs(i, j + 1) == (before + RowPairs(i, j)) + [(i, j)]
  {
    assert RowPairs(i, i + 1) == [];
  }

  /** There is no result exactly when fewer than two groups are given or
      `ms_within` is not positive. */
  lemma TukeyNoneIff(groups: seq<Group>, ms: real, df: int)
    requires NonEmptyGroups(groups)
    ensures Tukey(groups, ms, df).None? <==> |groups| < 2 || ms <= 0.0
  {
  }

  /** The degrees of freedom are passed in but never used. */
  lemma TukeyIgnoresDf(groups: seq<Group>, ms: real, df1: int, df2: int)
    requires NonEmptyGroups(groups)
    ensures Tukey(groups, ms, df1) == Tukey(groups, ms, df2)
  {
  }

  /** The comparisons are Compare applied to each pair, position by position. */
  lemma {:induction false} ComparisonsAt(groups: seq<Group>, ms: real, ps: seq<(nat, nat)>)
    requires NonEmptyGroups(groups) && InRange(ps, |groups|)
    ensures |Comparisons(groups, ms, ps)| == |ps|
    ensures forall p :: 0 <= p < |ps| ==> Comparisons(groups, ms, ps)[p] == Compare(groups[ps[p].0], groups[ps[p].1], ms)
    decreases |ps|
  {
    if ps != [] {
      ComparisonsAt(groups, ms, ps[..|ps| - 1]);
    }
  }

  /** On success there are exactly k(k-1)/2 comparisons, one per pair
      i < j of the input order, and the comparison of groups i and j sits
      at position `PairIndex(k, i, j)`: ordered by i, then by j. */
  lemma TukeyPairs(groups: seq<Group>, ms: real, df: int)
    requires NonEmptyGroups(groups)
    requires Tukey(groups, ms, df).Some?
    ensures var cs, k := Tukey(groups, ms, df).value, |groups|;
      && 2 * |cs| == k * (k - 1)
      && forall i, j :: 0 <= i < j < k ==>
           && PairIndex(k, i, j) < |cs|
           && cs[PairIndex(k, i, j)] == Compare(groups[i], groups[j], ms)
  {
    var k := |groups|;
    AllPairsLength(k, k);
    AllPairsInRange(k, k);
    AllPairsAt(k, k);
    ComparisonsAt(groups, ms, AllPairs(k, k));
    PairsBeforeClosed(k, k);
  }

  /** Every comparison names its two groups, reports the absolute difference
      of their means, has a non-negative `hsd²` when `ms_within > 0`, and is
      significant exactly when the difference exceeds `hsd`: for every h >= 0
      with h² = hsd², significant holds iff diff > h. */
  lemma CompareMeaning(g1: Group, g2: Group, ms: real, h: real)
    requires |g1.values| > 0 && |g2.values| > 0 && ms > 0.0
    requires h >= 0.0 && h * h == Compare(g1, g2, ms).hsdSquared
    ensures var c := Compare(g1, g2, ms);
      && c.group1 == g1.name && c.group2 == g2.name
      && c.diff >= 0.0
      && (c.diff == Mean(g1.values) - Mean(g2.values) || c.diff == Mean(g2.values) - Mean(g1.values))
      && c.hsdSquared > 0.0
      && (c.significant <==> c.diff > h)
  {
    var c := Compare(g1, g2, ms);
    var n1, n2 := |g1.values| as real, |g2.values| as real;
    assert 1.0 / n1 > 0.0 && 1.0 / n2 > 0.0;
    assert ms * (1.0 / n1 + 1.0 / n2) > 0.0;
    SignificantIffExceeds(c.diff, h);
  }

  /** For non-negative d and h, `d² > h²` exactly when `d > h`. */
  lemma SignificantIffExceeds(d: real, h: real)
    requires d >= 0.0 && h >= 0.0
    ensures d * d > h * h <==> d > h
  {
    if d > h {
      assert d * d - h * d == d * (d - h);
      assert d * (d - h) > 0.0;
      assert h * d - h * h == h * (d - h);
      assert h * (d - h) >= 0.0;
    } else {
      assert h * h - h * d == h * (h - d);
      assert h * (h - d) >= 0.0;
      assert h * d - d * d == d * (h - d);
      assert d * (h - d) >= 0.0;
    }
  }
}
