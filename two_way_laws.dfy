/** What `calculate_two_way_anova` promises about its result: the order of
    its checks, the degree-of-freedom check that a complete grid always
    passes, the shape of the result, the degrees of freedom and the sums of
    squares that decompose the total. */
module TwoWayLaws {
  import opened Wrappers
  import opened Sums
  import opened Records
  import opened Levels
  import opened CrossTable
  import opened TwoWayAnova

  /** The level lists are sorted, distinct, and hold exactly the observed levels. */
  lemma LevelsFacts(obs: seq<Cross>)
    ensures Distinct(LevelsA(obs)) && Increasing(LevelsA(obs))
    ensures Distinct(LevelsB(obs)) && Increasing(LevelsB(obs))
    ensures forall x :: x in LevelsA(obs) <==> x in FactorA(obs)
    ensures forall x :: x in LevelsB(obs) <==> x in FactorB(obs)
  {
    DedupMeaning(FactorA(obs));
    DedupMeaning(FactorB(obs));
    SortSameNames(Dedup(FactorA(obs)));
    SortSameNames(Dedup(FactorB(obs)));
    SortIncreasing(Dedup(FactorA(obs)));
    SortIncreasing(Dedup(FactorB(obs)));
  }

  /** Every observation lies in the grid of the level lists. */
  lemma ObservationsInGrid(obs: seq<Cross>)
    ensures forall i :: 0 <= i < |obs| ==> obs[i].a in LevelsA(obs) && obs[i].b in LevelsB(obs)
  {
    LevelsFacts(obs);
    forall i | 0 <= i < |obs| ensures obs[i].a in LevelsA(obs) && obs[i].b in LevelsB(obs) {
      assert FactorA(obs)[i] == obs[i].a && FactorB(obs)[i] == obs[i].b;
    }
  }

  /** Rows that give no observation are answered with the levels error. */
  lemma NoObservationsTooFewLevels(rows: seq<Row>, factorA: string, factorB: string, valueKey: string)
    requires Crosses(rows, factorA, factorB, valueKey) == []
    ensures TwoWay(rows, factorA, factorB, valueKey) == Failed(TooFewLevels)
  {
    var obs := Crosses(rows, factorA, factorB, valueKey);
    assert FactorA(obs) == [] && FactorB(obs) == [];
  }

  /** The cell check comes first: as soon as some observed pair of levels
      has fewer than two values, the answer is the cell error, however many
      levels either factor has. */
  lemma CellCheckFirst(rows: seq<Row>, factorA: string, factorB: string, valueKey: string, o: Cross)
    requires o in Crosses(rows, factorA, factorB, valueKey)
    requires |CellValues(Crosses(rows, factorA, factorB, valueKey), o.a, o.b)| < 2
    ensures TwoWay(rows, factorA, factorB, valueKey) == Failed(CellTooSmall)
  {
    var obs := Crosses(rows, factorA, factorB, valueKey);
    var As, Bs := LevelsA(obs), LevelsB(obs);
    var n :| 0 <= n < |obs| && obs[n] == o;
    ObservationsInGrid(obs);
    var i :| 0 <= i < |As| && As[i] == o.a;
    var j :| 0 <= j < |Bs| && Bs[j] == o.b;
    assert |CellValues(obs, As[i], Bs[j])| < 2;
  }

  /** So a single usable row, one level of each factor, gets the cell error
      rather than the levels error. */
  lemma SingleRowCellError(row: Row, factorA: string, factorB: string, valueKey: string)
    requires factorA in row.attrs && factorB in row.attrs && valueKey in row.answers
    ensures TwoWay([row], factorA, factorB, valueKey) == Failed(CellTooSmall)
  {
    var o := Cross(row.attrs[factorA], row.attrs[factorB], row.answers[valueKey] as real);
    SingleRowObservation(row, factorA, factorB, valueKey);
    assert [o][..0] == [];
    assert CellValues([o], o.a, o.b) == [o.value];
    CellCheckFirst([row], factorA, factorB, valueKey, o);
  }

  /** A row with all three keys set gives exactly one observation. */
  lemma SingleRowObservation(row: Row, factorA: string, factorB: string, valueKey: string)
    requires factorA in row.attrs && factorB in row.attrs && valueKey in row.answers
    ensures Crosses([row], factorA, factorB, valueKey)
         == [Cross(row.attrs[factorA], row.attrs[factorB], row.answers[valueKey] as real)]
  {
    assert [row][..0] == [];
  }

  /** A complete grid holds at least two values per cell, so its error
      degrees of freedom are positive: the degree-of-freedom error is never
      returned. */
  lemma NeverBadDegreesOfFreedom(rows: seq<Row>, factorA: string, factorB: string, valueKey: string)
    ensures TwoWay(rows, factorA, factorB, valueKey) != Failed(BadDegreesOfFreedom)
  {
    var obs := Crosses(rows, factorA, factorB, valueKey);
    var As, Bs := LevelsA(obs), LevelsB(obs);
    if Complete(obs, As, Bs) && |As| >= 2 && |Bs| >= 2 {
      LevelsNeedValues(obs);
      ErrorDegreesPositive(obs);
      ProductOfPositives(|As| - 1, |Bs| - 1);
    }
  }

  /** In a complete grid of at least one level each, N > a·b. */
  lemma ErrorDegreesPositive(obs: seq<Cross>)
    requires Complete(obs, LevelsA(obs), LevelsB(obs)) && |LevelsA(obs)| >= 1 && |LevelsB(obs)| >= 1
    ensures |obs| > |LevelsA(obs)| * |LevelsB(obs)|
  {
    var As, Bs := LevelsA(obs), LevelsB(obs);
    LevelsFacts(obs);
    ObservationsInGrid(obs);
    Partition(obs, As, Bs, Size);
    GridSizeComplete(obs, As, Bs);
    assert CellStat(Values(obs), Size) == |obs| as real;
    CountBound(|obs|, |As|, |Bs|);
  }

  lemma CountBound(n: nat, a: nat, b: nat)
    requires n as real >= (2 * a * b) as real && a >= 1 && b >= 1
    ensures n > a * b
  {
    var p := a * b;
    ProductOfPositives(a, b);
    assert 2 * a * b == 2 * p;
  }

  /** The levels of a result are the sorted distinct observed levels, at
      least two of each. */
  lemma TableLevels(rows: seq<Row>, factorA: string, factorB: string, valueKey: string)
    requires TwoWay(rows, factorA, factorB, valueKey).Table?
    ensures var t, obs := TwoWay(rows, factorA, factorB, valueKey).table, Crosses(rows, factorA, factorB, valueKey);
      && t.factorALevels == LevelsA(obs) && t.factorBLevels == LevelsB(obs)
      && |t.factorALevels| >= 2 && |t.factorBLevels| >= 2
      && Increasing(t.factorALevels) && Increasing(t.factorBLevels)
      && (forall x :: x in t.factorALevels <==> x in FactorA(obs))
      && (forall x :: x in t.factorBLevels <==> x in FactorB(obs))
  {
    LevelsFacts(Crosses(rows, factorA, factorB, valueKey));
  }

  /** `cell_stats[i][j]` describes the cell of the i-th factor A level and
      the j-th factor B level, which holds at least two values. */
  lemma TableCells(rows: seq<Row>, factorA: string, factorB: string, valueKey: string)
    requires TwoWay(rows, factorA, factorB, valueKey).Table?
    ensures var t, obs := TwoWay(rows, factorA, factorB, valueKey).table, Crosses(rows, factorA, factorB, valueKey);
      && |t.cellStats| == |t.factorALevels|
      && (forall i :: 0 <= i < |t.cellStats| ==> |t.cellStats[i]| == |t.factorBLevels|)
      && (forall i, j :: 0 <= i < |t.cellStats| && 0 <= j < |t.factorBLevels| ==>
            var vs := CellValues(obs, t.factorALevels[i], t.factorBLevels[j]);
            && |vs| >= 2
            && t.cellStats[i][j] == CellSummary(Mean(vs), |vs|, Sum(vs)))
  {
  }

  /** The `n` entries of a row of `cell_stats`, added up. */
  function RowCount(row: seq<CellSummary>): nat
    decreases |row|
  {
    if row == [] then 0 else RowCount(row[..|row| - 1]) + row[|row| - 1].n
  }

  /** The `n` entries of all of `cell_stats`, added up. */
  function TableCount(table: seq<seq<CellSummary>>): nat
    decreases |table|
  {
    if table == [] then 0 else TableCount(table[..|table| - 1]) + RowCount(table[|table| - 1])
  }

  lemma {:induction false} RowCountMargin(obs: seq<Cross>, a: string, Bs: seq<string>)
    ensures RowCount(SummaryRow(obs, a, Bs)) as real == Margin(obs, a, Bs, true, Size)
    decreases |Bs|
  {
    if Bs != [] {
      var init := Bs[..|Bs| - 1];
      RowCountMargin(obs, a, init);
      assert SummaryRow(obs, a, Bs)[..|Bs| - 1] == SummaryRow(obs, a, init);
    }
  }

  lemma {:induction false} TableCountGrid(obs: seq<Cross>, As: seq<string>, Bs: seq<string>)
    ensures TableCount(SummaryTable(obs, As, Bs)) as real == Grid(obs, As, Bs, Size)
    decreases |As|
  {
    if As != [] {
      var init := As[..|As| - 1];
      TableCountGrid(obs, init, Bs);
      RowCountMargin(obs, As[|As| - 1], Bs);
      assert SummaryTable(obs, As, Bs)[..|As| - 1] == SummaryTable(obs, init, Bs);
    }
  }

  /** The counts in `cell_stats` add up to N: every value that entered the
      analysis sits in exactly one cell of the result. */
  lemma TableCellCounts(rows: seq<Row>, factorA: string, factorB: string, valueKey: string)
    requires TwoWay(rows, factorA, factorB, valueKey).Table?
    ensures TableCount(TwoWay(rows, factorA, factorB, valueKey).table.cellStats)
         == |Crosses(rows, factorA, factorB, valueKey)|
  {
    var obs := Crosses(rows, factorA, factorB, valueKey);
    var As, Bs := LevelsA(obs), LevelsB(obs);
    LevelsFacts(obs);
    ObservationsInGrid(obs);
    Partition(obs, As, Bs, Size);
    TableCountGrid(obs, As, Bs);
  }

  /** dfA = a − 1, dfB = b − 1, dfAB = (a − 1)(b − 1), dfError = N − ab and
      the total N − 1, which the other four add up to. */
  lemma TableDegreesOfFreedom(rows: seq<Row>, factorA: string, factorB: string, valueKey: string)
    requires TwoWay(rows, factorA, factorB, valueKey).Table?
    ensures var t, obs := TwoWay(rows, factorA, factorB, valueKey).table, Crosses(rows, factorA, factorB, valueKey);
      var a, b := |t.factorALevels|, |t.factorBLevels|;
      && t.factorA.df == a - 1 && t.factorB.df == b - 1
      && t.interaction.df == (a - 1) * (b - 1)
      && t.error.df == |obs| - a * b > 0
      && t.total.df == |obs| - 1
      && t.factorA.df + t.factorB.df + t.interaction.df + t.error.df == t.total.df
  {
    var obs := Crosses(rows, factorA, factorB, valueKey);
    var As, Bs := LevelsA(obs), LevelsB(obs);
    LevelsNeedValues(obs);
    ErrorDegreesPositive(obs);
    var t := TwoWay(rows, factorA, factorB, valueKey).table;
    assert t == Finish(SsA(obs, As, Bs), SsB(obs, As, Bs), SsAB(obs, As, Bs), SsError(obs, As, Bs), SsTotal(obs),
                       |As| - 1, |Bs| - 1, (|As| - 1) * (|Bs| - 1), |obs| - |As| * |Bs|, |obs|, SummaryTable(obs, As, Bs), As, Bs);
    DegreesAddUp(|As|, |Bs|, |obs|);
  }

  /** (a − 1) + (b − 1) + (a − 1)(b − 1) + (N − ab) = N − 1. */
  lemma DegreesAddUp(a: int, b: int, n: int)
    ensures (a - 1) + (b - 1) + (a - 1) * (b - 1) + (n - a * b) == n - 1
  {
  }

  /** The sums of squares of both factors, the interaction and the error
      add up to the total sum of squares, and the error and total sums are
      never negative. */
  lemma TableSumsOfSquares(rows: seq<Row>, factorA: string, factorB: string, valueKey: string)
    requires TwoWay(rows, factorA, factorB, valueKey).Table?
    ensures var t := TwoWay(rows, factorA, factorB, valueKey).table;
      && t.factorA.ss + t.factorB.ss + t.interaction.ss + t.error.ss == t.total.ss
      && t.error.ss >= 0.0 && t.total.ss >= 0.0
  {
    var obs := Crosses(rows, factorA, factorB, valueKey);
    LevelsNeedValues(obs);
    SumsOfSquaresAddUp(obs);
  }

  /** The decomposition on the observations: ssA + ssB + ssAB + ssError = ssTotal. */
  lemma SumsOfSquaresAddUp(obs: seq<Cross>)
    requires |obs| > 0
    ensures var As, Bs := LevelsA(obs), LevelsB(obs);
      && SsA(obs, As, Bs) + SsB(obs, As, Bs) + SsAB(obs, As, Bs) + SsError(obs, As, Bs) == SsTotal(obs)
      && SsError(obs, As, Bs) >= 0.0 && SsTotal(obs) >= 0.0
  {
    var As, Bs := LevelsA(obs), LevelsB(obs);
    var all := Values(obs);
    LevelsFacts(obs);
    ObservationsInGrid(obs);
    GridSplit(obs, As, Bs);
    Partition(obs, As, Bs, Squares);
    SqDevAroundMean(all);
    RatioOfPositive(Sum(all), |obs|);
    GridDeviationNonNegative(obs, As, Bs);
    SqDevNonNegative(all, Mean(all));
  }

  /** The squared deviations within cells are never negative. */
  lemma {:induction false} GridDeviationNonNegative(obs: seq<Cross>, As: seq<string>, Bs: seq<string>)
    ensures Grid(obs, As, Bs, Deviation) >= 0.0
    decreases |As|
  {
    if As != [] {
      GridDeviationNonNegative(obs, As[..|As| - 1], Bs);
      MarginDeviationNonNegative(obs, As[|As| - 1], Bs);
    }
  }

  lemma {:induction false} MarginDeviationNonNegative(obs: seq<Cross>, a: string, Bs: seq<string>)
    ensures Margin(obs, a, Bs, true, Deviation) >= 0.0
    decreases |Bs|
  {
    if Bs != [] {
      MarginDeviationNonNegative(obs, a, Bs[..|Bs| - 1]);
      var vs := CellValues(obs, a, Bs[|Bs| - 1]);
      if vs != [] {
        SqDevNonNegative(vs, Mean(vs));
      }
    }
  }
}
