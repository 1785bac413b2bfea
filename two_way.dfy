/** Two-way ANOVA over two categorical factors (`calculate_two_way_anova`):
    the values are cross-tabulated by the factor A and factor B levels of
    their rows; an incomplete or thin grid and too few levels are rejected
    with the source's messages; otherwise the sums of squares of both
    factors, their interaction and the error are computed with their degrees
    of freedom, mean squares and F ratios. */
module TwoWayAnova {
  import opened Sums
  import opened Records
  import opened Grouping
  import opened Levels
  import opened CrossTable

  /** The three error strings `calculate_two_way_anova` can return. */
  datatype TwoWayError = CellTooSmall | TooFewLevels | BadDegreesOfFreedom
  {
    function Message(): string
    {
      match this
      case CellTooSmall => "各グループの組み合わせに最低2件以上のデータが必要です。"
      case TooFewLevels => "各要因に2つ以上の水準が必要です。"
      case BadDegreesOfFreedom => "自由度の計算に問題が発生しました。"
    }
  }

  /** A row of the result for a factor or the interaction. */
  datatype Effect = Effect(ss: real, df: int, ms: real, f: real)

  /** The `error` row. */
  datatype Residual = Residual(ss: real, df: int, ms: real)

  /** The `total` row. */
  datatype TotalRow = TotalRow(ss: real, df: int)

  /** `$cell_stats[$a][$b]`. */
  datatype CellSummary = CellSummary(mean: real, n: nat, sum: real)

  /** The array returned on success; `cellStats[i][j]` describes the cell of
      `factorALevels[i]` and `factorBLevels[j]`. */
  datatype TwoWayTable = TwoWayTable(
    factorA: Effect, factorB: Effect, interaction: Effect, error: Residual, total: TotalRow,
    cellStats: seq<seq<CellSummary>>, factorALevels: seq<string>, factorBLevels: seq<string>)

  /** An error string or the result array. */
  datatype TwoWayOutcome = Failed(error: TwoWayError) | Table(table: TwoWayTable)

  /** The sorted distinct factor A levels of the observations. */
  function LevelsA(obs: seq<Cross>): seq<string>
  {
    Sort(Dedup(FactorA(obs)))
  }

  /** The sorted distinct factor B levels of the observations. */
  function LevelsB(obs: seq<Cross>): seq<string>
  {
    Sort(Dedup(FactorB(obs)))
  }

  /** A cell's `['mean' => …, 'n' => …, 'sum' => …]`. */
  function Summary(vs: seq<real>): CellSummary
  {
    CellSummary(if vs == [] then 0.0 else Mean(vs), |vs|, Sum(vs))
  }

  /** The summaries of level a's cells, in the order of Bs. */
  function SummaryRow(obs: seq<Cross>, a: string, Bs: seq<string>): seq<CellSummary>
  {
    seq(|Bs|, j requires 0 <= j < |Bs| => Summary(CellValues(obs, a, Bs[j])))
  }

  /** `$cell_stats`, in the order of As and Bs. */
  function SummaryTable(obs: seq<Cross>, As: seq<string>, Bs: seq<string>): seq<seq<CellSummary>>
  {
    seq(|As|, i requires 0 <= i < |As| => SummaryRow(obs, As[i], Bs))
  }

  /** `$ms_error > 0 ? $ms / $ms_error : 0`. */
  function FRatio(ms: real, msError: real): real
  {
    if msError > 0.0 then ms / msError else 0.0
  }

  /** `$ss / $df`; only reached with df > 0, and `$ms_ab` is 0 when its df is 0. */
  function MeanSquare(ss: real, df: int): real
  {
    if df > 0 then ss / (df as real) else 0.0
  }

  /** The result array from the sums of squares and degrees of freedom. */
  function Finish(ssA: real, ssB: real, ssAB: real, ssError: real, ssTotal: real,
                  dfA: int, dfB: int, dfAB: int, dfError: int, n: int,
                  cellStats: seq<seq<CellSummary>>, As: seq<string>, Bs: seq<string>): TwoWayTable
  {
    var msA, msB := MeanSquare(ssA, dfA), MeanSquare(ssB, dfB);
    var msAB, msError := MeanSquare(ssAB, dfAB), MeanSquare(ssError, dfError);
    TwoWayTable(
      Effect(ssA, dfA, msA, FRatio(msA, msError)),
      Effect(ssB, dfB, msB, FRatio(msB, msError)),
      Effect(ssAB, dfAB, msAB, FRatio(msAB, msError)),
      Residual(ssError, dfError, msError),
      TotalRow(ssTotal, n - 1),
      cellStats, As, Bs)
  }

  /** `pow($grand_total, 2) / $N`. */
  function Correction(obs: seq<Cross>): real
  {
    Ratio(Sum(Values(obs)), |obs|)
  }

  /** `$ss_total`: the squared deviations of every value from the grand mean. */
  function SsTotal(obs: seq<Cross>): real
    requires |obs| > 0
  {
    SqDev(Values(obs), Mean(Values(obs)))
  }

  /** `$ss_a`. */
  function SsA(obs: seq<Cross>, As: seq<string>, Bs: seq<string>): real
  {
    MarginSquares(obs, As, Bs, true) - Correction(obs)
  }

  /** `$ss_b`. */
  function SsB(obs: seq<Cross>, As: seq<string>, Bs: seq<string>): real
  {
    MarginSquares(obs, Bs, As, false) - Correction(obs)
  }

  /** `$ss_cells`. */
  function SsCellMeans(obs: seq<Cross>, As: seq<string>, Bs: seq<string>): real
  {
    Grid(obs, As, Bs, Between) - Correction(obs)
  }

  /** `$ss_ab`. */
  function SsAB(obs: seq<Cross>, As: seq<string>, Bs: seq<string>): real
  {
    SsCellMeans(obs, As, Bs) - SsA(obs, As, Bs) - SsB(obs, As, Bs)
  }

  /** `$ss_error`: the squared deviations of every value from its cell mean. */
  function SsError(obs: seq<Cross>, As: seq<string>, Bs: seq<string>): real
  {
    Grid(obs, As, Bs, Deviation)
  }

  /** The analysis of a complete grid with at least one value. */
  function Tabulate(obs: seq<Cross>, As: seq<string>, Bs: seq<string>): TwoWayOutcome
    requires |obs| > 0
  {
    var n := |obs|;
    var dfA, dfB := |As| - 1, |Bs| - 1;
    var dfAB, dfError := dfA * dfB, n - |As| * |Bs|;
    if dfA <= 0 || dfB <= 0 || dfAB < 0 || dfError <= 0 then Failed(BadDegreesOfFreedom)
    else Table(Finish(SsA(obs, As, Bs), SsB(obs, As, Bs), SsAB(obs, As, Bs), SsError(obs, As, Bs), SsTotal(obs),
                      dfA, dfB, dfAB, dfError, n, SummaryTable(obs, As, Bs), As, Bs))
  }

  /** What `calculate_two_way_anova($data, $factorA_key, $factorB_key, $value_key)`
      returns, as a value. */
  function TwoWay(rows: seq<Row>, factorA: string, factorB: string, valueKey: string): TwoWayOutcome
  {
    var obs := Crosses(rows, factorA, factorB, valueKey);
    var As, Bs := LevelsA(obs), LevelsB(obs);
    if !Complete(obs, As, Bs) then Failed(CellTooSmall)
    else if |As| < 2 || |Bs| < 2 then Failed(TooFewLevels)
    else
      LevelsNeedValues(obs);
      Tabulate(obs, As, Bs)
  }

  /** No observation, no level. */
  lemma LevelsNeedValues(obs: seq<Cross>)
    ensures |LevelsA(obs)| > 0 ==> |obs| > 0
  {
    if obs == [] {
      assert FactorA(obs) == [];
    }
  }

  // ---------------------------------------------------------------------
  // The steps of calculate_two_way_anova

  /** The first loop: `$cells[$a_level][$b_level][] = $value` and
      `$all_values[] = $value` for every row where all three keys are set. */
  method CollectCells(data: seq<Row>, factorA: string, factorB: string, valueKey: string)
    returns (cells: seq<Level>, allValues: seq<real>)
    ensures cells == CellsOf(Crosses(data, factorA, factorB, valueKey))
    ensures allValues == Values(Crosses(data, factorA, factorB, valueKey))
  {
    cells := [];
    allValues := [];
    for i := 0 to |data|
      invariant cells == CellsOf(Crosses(data[..i], factorA, factorB, valueKey))
      invariant allValues == Values(Crosses(data[..i], factorA, factorB, valueKey))
    {
      assert data[..i + 1][..i] == data[..i];
      var row := data[i];
      if factorA !in row.attrs || factorB !in row.attrs || valueKey !in row.answers {
        continue;
      }
      var aLevel := row.attrs[factorA];
      var bLevel := row.attrs[factorB];
      var value := row.answers[valueKey] as real;
      ghost var obs := Crosses(data[..i], factorA, factorB, valueKey);
      ghost var o := Cross(aLevel, bLevel, value);
      assert (obs + [o])[..|obs|] == obs;
      assert Values(obs + [o]) == Values(obs) + [value];
      cells := AddCell(cells, aLevel, bLevel, value);
      allValues := allValues + [value];
    }
    assert data[..|data|] == data;
  }

  /** The walk over `$cells` collecting `$factorB_levels`: every factor B
      level under some factor A level, appended once (the `in_array` guard). */
  method CollectColumns(cells: seq<Level>) returns (levels: seq<string>)
    ensures Distinct(levels)
    ensures forall b :: b in levels <==> b in Columns(cells)
  {
    levels := [];
    for i := 0 to |cells|
      invariant Distinct(levels)
      invariant forall b :: b in levels <==> exists m :: 0 <= m < i && b in Names(cells[m].cols)
    {
      var cols := cells[i].cols;
      for j := 0 to |cols|
        invariant Distinct(levels)
        invariant forall b :: b in levels <==>
          (exists m :: 0 <= m < i && b in Names(cells[m].cols)) || (exists n :: 0 <= n < j && cols[n].name == b)
      {
        var b := cols[j].name;
        if b !in levels {
          levels := levels + [b];
        }
      }
      assert forall b :: b in Names(cols) <==> exists n :: 0 <= n < |cols| && cols[n].name == b by {
        assert forall n :: 0 <= n < |cols| ==> Names(cols)[n] == cols[n].name;
      }
    }
  }

  /** The nested check: false as soon as some cell of the sorted grid is
      unset or has fewer than two values (an unset cell reads as empty). */
  method CheckCells(cells: seq<Level>, As: seq<string>, Bs: seq<string>) returns (complete: bool)
    ensures complete <==> forall i, j :: 0 <= i < |As| && 0 <= j < |Bs| ==> |CellAt(cells, As[i], Bs[j])| >= 2
  {
    for i := 0 to |As|
      invariant forall m, j :: 0 <= m < i && 0 <= j < |Bs| ==> |CellAt(cells, As[m], Bs[j])| >= 2
    {
      for j := 0 to |Bs|
        invariant forall m, n :: 0 <= m < i && 0 <= n < |Bs| ==> |CellAt(cells, As[m], Bs[n])| >= 2
        invariant forall n :: 0 <= n < j ==> |CellAt(cells, As[i], Bs[n])| >= 2
      {
        if |CellAt(cells, As[i], Bs[j])| < 2 {
          return false;
        }
      }
    }
    return true;
  }

  /** `foreach ($values as $v) $ss += pow($v - $centre, 2)`. */
  method SquaredDeviations(values: seq<real>, centre: real) returns (ss: real)
    ensures ss == SqDev(values, centre)
  {
    ss := 0.0;
    for i := 0 to |values|
      invariant ss == SqDev(values[..i], centre)
    {
      assert values[..i + 1][..i] == values[..i];
      var d := values[i] - centre;
      ss := ss + d * d;
    }
    assert values[..|values|] == values;
  }

  /** `$row_totals[$a_level] = 0; $row_counts[$a_level] = 0;` for every level
      (and the same for the columns); the totals are kept in the order of
      the levels, which is the order the keys are set in. */
  method ZeroTotals(levels: seq<string>) returns (totals: seq<real>, counts: seq<int>)
    ensures |totals| == |levels| && |counts| == |levels|
    ensures forall m :: 0 <= m < |levels| ==> totals[m] == 0.0 && counts[m] == 0
  {
    totals, counts := [], [];
    for i := 0 to |levels|
      invariant |totals| == i && |counts| == i
      invariant forall m :: 0 <= m < i ==> totals[m] == 0.0 && counts[m] == 0
    {
      totals := totals + [0.0];
      counts := counts + [0];
    }
  }

  /** The summaries of one more factor B level. */
  lemma SummaryRowPrefix(obs: seq<Cross>, a: string, Bs: seq<string>, j: nat)
    requires j < |Bs|
    ensures SummaryRow(obs, a, Bs[..j + 1]) == SummaryRow(obs, a, Bs[..j]) + [Summary(CellValues(obs, a, Bs[j]))]
  {
  }

  /** The summaries of one more factor A level. */
  lemma SummaryTablePrefix(obs: seq<Cross>, As: seq<string>, Bs: seq<string>, i: nat)
    requires i < |As|
    ensures SummaryTable(obs, As[..i + 1], Bs) == SummaryTable(obs, As[..i], Bs) + [SummaryRow(obs, As[i], Bs)]
  {
  }

  /** The grid over one more factor A level. */
  lemma GridPrefix(obs: seq<Cross>, As: seq<string>, Bs: seq<string>, i: nat, k: Stat)
    requires i < |As|
    ensures Grid(obs, As[..i + 1], Bs, k) == Grid(obs, As[..i], Bs, k) + Margin(obs, As[i], Bs, true, k)
  {
    assert As[..i + 1][..i] == As[..i];
  }

  /** Every column margin over one more factor A level. */
  lemma ColumnMarginsPrefix(obs: seq<Cross>, As: seq<string>, Bs: seq<string>, i: nat)
    requires i < |As|
    ensures forall m :: 0 <= m < |Bs| ==>
      Margin(obs, Bs[m], As[..i + 1], false, Total) == Margin(obs, Bs[m], As[..i], false, Total) + Sum(CellValues(obs, As[i], Bs[m]))
    ensures forall m :: 0 <= m < |Bs| ==>
      MarginCount(obs, Bs[m], As[..i + 1], false) == MarginCount(obs, Bs[m], As[..i], false) + |CellValues(obs, As[i], Bs[m])|
  {
    forall m | 0 <= m < |Bs|
      ensures Margin(obs, Bs[m], As[..i + 1], false, Total) == Margin(obs, Bs[m], As[..i], false, Total) + Sum(CellValues(obs, As[i], Bs[m]))
      ensures MarginCount(obs, Bs[m], As[..i + 1], false) == MarginCount(obs, Bs[m], As[..i], false) + |CellValues(obs, As[i], Bs[m])|
    {
      MarginPrefix(obs, Bs[m], As, i, false, Total);
    }
  }

  /** One cell's count, sum, mean and squared deviations from its mean. */
  method DescribeCell(values: seq<real>) returns (n: nat, sum: real, mean: real, ss: real)
    requires |values| > 0
    ensures n == |values| && sum == Sum(values) && mean == Mean(values)
    ensures ss == CellStat(values, Deviation)
    ensures CellSummary(mean, n, sum) == Summary(values)
  {
    n := |values|;
    sum := Sum(values);
    mean := sum / (n as real);
    ss := SquaredDeviations(values, mean);
  }

  /** One pass of the inner loop over the factor B levels for the factor A
      level `As[i]`: each cell's mean, count and sum go into `$cell_stats`,
      its sum and count into the row and column totals, and its squared
      deviations into `$ss_error`. */
  method AccumulateRow(cells: seq<Level>, ghost obs: seq<Cross>, As: seq<string>, Bs: seq<string>, i: nat,
                       rowTotals: seq<real>, rowCounts: seq<int>,
                       colTotals: seq<real>, colCounts: seq<int>, ssError: real)
    returns (rowTotals': seq<real>, rowCounts': seq<int>,
             colTotals': seq<real>, colCounts': seq<int>,
             summaries: seq<CellSummary>, ssError': real)
    requires i < |As| == |rowTotals| == |rowCounts| && |colTotals| == |colCounts| == |Bs|
    requires forall j :: 0 <= j < |Bs| ==> CellAt(cells, As[i], Bs[j]) == CellValues(obs, As[i], Bs[j])
    requires forall j :: 0 <= j < |Bs| ==> |CellValues(obs, As[i], Bs[j])| >= 2
    requires rowTotals[i] == 0.0 && rowCounts[i] == 0
    ensures |rowTotals'| == |rowCounts'| == |As| && |colTotals'| == |colCounts'| == |Bs|
    ensures forall m :: 0 <= m < |As| && m != i ==> rowTotals'[m] == rowTotals[m] && rowCounts'[m] == rowCounts[m]
    ensures rowTotals'[i] == Margin(obs, As[i], Bs, true, Total)
    ensures rowCounts'[i] == MarginCount(obs, As[i], Bs, true)
    ensures forall m :: 0 <= m < |Bs| ==> colTotals'[m] == colTotals[m] + Sum(CellValues(obs, As[i], Bs[m]))
    ensures forall m :: 0 <= m < |Bs| ==> colCounts'[m] == colCounts[m] + |CellValues(obs, As[i], Bs[m])|
    ensures summaries == SummaryRow(obs, As[i], Bs)
    ensures ssError' == ssError + Margin(obs, As[i], Bs, true, Deviation)
  {
    var a := As[i];
    rowTotals', rowCounts', colTotals', colCounts', ssError' := rowTotals, rowCounts, colTotals, colCounts, ssError;
    summaries := [];
    for j := 0 to |Bs|
      invariant |rowTotals'| == |rowCounts'| == |As|
      invariant forall m :: 0 <= m < |As| && m != i ==> rowTotals'[m] == rowTotals[m] && rowCounts'[m] == rowCounts[m]
      invariant rowTotals'[i] == Margin(obs, a, Bs[..j], true, Total)
      invariant rowCounts'[i] == MarginCount(obs, a, Bs[..j], true)
      invariant ColumnsAdded(obs, a, Bs, j, colTotals, colCounts, colTotals', colCounts')
      invariant summaries == SummaryRow(obs, a, Bs[..j])
      invariant ssError' == ssError + Margin(obs, a, Bs[..j], true, Deviation)
    {
      var values := CellAt(cells, a, Bs[j]);
      var n, sum, mean, ss := DescribeCell(values);
      CellStep(obs, a, Bs, j);
      ColumnsAddedStep(obs, a, Bs, j, colTotals, colCounts, colTotals', colCounts', sum, n);

      summaries := summaries + [CellSummary(mean, n, sum)];
      rowTotals' := rowTotals'[i := rowTotals'[i] + sum];
      rowCounts' := rowCounts'[i := rowCounts'[i] + n];
      colTotals' := colTotals'[j := colTotals'[j] + sum];
      colCounts' := colCounts'[j := colCounts'[j] + n];
      ssError' := ssError' + ss;
    }
    assert Bs[..|Bs|] == Bs;
  }

  /** Every row-major margin and the summaries of level a, over one more
      factor B level. */
  lemma CellStep(obs: seq<Cross>, a: string, Bs: seq<string>, j: nat)
    requires j < |Bs|
    ensures var vs := CellValues(obs, a, Bs[j]);
      && Margin(obs, a, Bs[..j + 1], true, Total) == Margin(obs, a, Bs[..j], true, Total) + Sum(vs)
      && MarginCount(obs, a, Bs[..j + 1], true) == MarginCount(obs, a, Bs[..j], true) + |vs|
      && Margin(obs, a, Bs[..j + 1], true, Deviation) == Margin(obs, a, Bs[..j], true, Deviation) + CellStat(vs, Deviation)
      && SummaryRow(obs, a, Bs[..j + 1]) == SummaryRow(obs, a, Bs[..j]) + [Summary(vs)]
  {
    SummaryRowPrefix(obs, a, Bs, j);
    MarginPrefix(obs, a, Bs, j, true, Total);
    MarginPrefix(obs, a, Bs, j, true, Deviation);
  }

  /** `$col_totals` and `$col_counts` after the first j cells of level a:
      those columns have level a's cells added, the others are unchanged. */
  predicate ColumnsAdded(obs: seq<Cross>, a: string, Bs: seq<string>, j: nat,
                         colTotals: seq<real>, colCounts: seq<int>, colTotals': seq<real>, colCounts': seq<int>)
  {
    && j <= |Bs| == |colTotals| == |colCounts| == |colTotals'| == |colCounts'|
    && (forall m :: 0 <= m < j ==> colTotals'[m] == colTotals[m] + Sum(CellValues(obs, a, Bs[m])))
    && (forall m :: 0 <= m < j ==> colCounts'[m] == colCounts[m] + |CellValues(obs, a, Bs[m])|)
    && (forall m :: j <= m < |Bs| ==> colTotals'[m] == colTotals[m] && colCounts'[m] == colCounts[m])
  }

  /** Adding cell j's sum and count to column j. */
  lemma ColumnsAddedStep(obs: seq<Cross>, a: string, Bs: seq<string>, j: nat,
                         colTotals: seq<real>, colCounts: seq<int>, colTotals': seq<real>, colCounts': seq<int>,
                         sum: real, n: int)
    requires j < |Bs| && ColumnsAdded(obs, a, Bs, j, colTotals, colCounts, colTotals', colCounts')
    requires sum == Sum(CellValues(obs, a, Bs[j])) && n == |CellValues(obs, a, Bs[j])|
    ensures ColumnsAdded(obs, a, Bs, j + 1, colTotals, colCounts,
                         colTotals'[j := colTotals'[j] + sum], colCounts'[j := colCounts'[j] + n])
  {
  }

  /** `$row_totals` and `$row_counts` after the first i factor A levels:
      the margins of those levels, zero for the rest. */
  predicate RowsSoFar(obs: seq<Cross>, As: seq<string>, Bs: seq<string>, i: nat,
                      rowTotals: seq<real>, rowCounts: seq<int>)
  {
    && i <= |As| == |rowTotals| == |rowCounts|
    && (forall m :: 0 <= m < i ==> rowTotals[m] == Margin(obs, As[m], Bs, true, Total))
    && (forall m :: 0 <= m < i ==> rowCounts[m] == MarginCount(obs, As[m], Bs, true))
    && (forall m :: i <= m < |As| ==> rowTotals[m] == 0.0 && rowCounts[m] == 0)
  }

  /** `$col_totals` and `$col_counts` after the first i factor A levels:
      each column's margin over those levels. */
  predicate ColumnsSoFar(obs: seq<Cross>, As: seq<string>, Bs: seq<string>, i: nat,
                         colTotals: seq<real>, colCounts: seq<int>)
  {
    && i <= |As| && |colTotals| == |colCounts| == |Bs|
    && (forall m :: 0 <= m < |Bs| ==> colTotals[m] == Margin(obs, Bs[m], As[..i], false, Total))
    && (forall m :: 0 <= m < |Bs| ==> colCounts[m] == MarginCount(obs, Bs[m], As[..i], false))
  }

  /** Filling in row i keeps the earlier rows and adds row i's margins. */
  lemma RowsStep(obs: seq<Cross>, As: seq<string>, Bs: seq<string>, i: nat,
                 rowTotals: seq<real>, rowCounts: seq<int>, rowTotals': seq<real>, rowCounts': seq<int>)
    requires i < |As| && RowsSoFar(obs, As, Bs, i, rowTotals, rowCounts)
    requires |rowTotals'| == |rowCounts'| == |As|
    requires forall m :: 0 <= m < |As| && m != i ==> rowTotals'[m] == rowTotals[m] && rowCounts'[m] == rowCounts[m]
    requires rowTotals'[i] == Margin(obs, As[i], Bs, true, Total)
    requires rowCounts'[i] == MarginCount(obs, As[i], Bs, true)
    ensures RowsSoFar(obs, As, Bs, i + 1, rowTotals', rowCounts')
  {
  }

  /** Adding row i's cells to every column extends the column margins by row i. */
  lemma ColumnsStep(obs: seq<Cross>, As: seq<string>, Bs: seq<string>, i: nat,
                    colTotals: seq<real>, colCounts: seq<int>, colTotals': seq<real>, colCounts': seq<int>)
    requires i < |As| && ColumnsSoFar(obs, As, Bs, i, colTotals, colCounts)
    requires |colTotals'| == |colCounts'| == |Bs|
    requires forall m :: 0 <= m < |Bs| ==> colTotals'[m] == colTotals[m] + Sum(CellValues(obs, As[i], Bs[m]))
    requires forall m :: 0 <= m < |Bs| ==> colCounts'[m] == colCounts[m] + |CellValues(obs, As[i], Bs[m])|
    ensures ColumnsSoFar(obs, As, Bs, i + 1, colTotals', colCounts')
  {
    ColumnMarginsPrefix(obs, As, Bs, i);
  }

  /** The nested loop over the sorted grid (`foreach ($factorA_levels …)
      foreach ($factorB_levels …)`). */
  method AccumulateCells(cells: seq<Level>, ghost obs: seq<Cross>, As: seq<string>, Bs: seq<string>,
                         rowTotals0: seq<real>, rowCounts0: seq<int>,
                         colTotals0: seq<real>, colCounts0: seq<int>)
    returns (rowTotals: seq<real>, rowCounts: seq<int>,
             colTotals: seq<real>, colCounts: seq<int>,
             cellStats: seq<seq<CellSummary>>, ssError: real)
    requires forall a, b :: CellAt(cells, a, b) == CellValues(obs, a, b)
    requires Complete(obs, As, Bs)
    requires |rowTotals0| == |rowCounts0| == |As| && |colTotals0| == |colCounts0| == |Bs|
    requires forall m :: 0 <= m < |As| ==> rowTotals0[m] == 0.0 && rowCounts0[m] == 0
    requires forall m :: 0 <= m < |Bs| ==> colTotals0[m] == 0.0 && colCounts0[m] == 0
    ensures |rowTotals| == |rowCounts| == |As| && |colTotals| == |colCounts| == |Bs|
    ensures forall m :: 0 <= m < |As| ==> rowTotals[m] == Margin(obs, As[m], Bs, true, Total)
    ensures forall m :: 0 <= m < |As| ==> rowCounts[m] == MarginCount(obs, As[m], Bs, true)
    ensures forall m :: 0 <= m < |Bs| ==> colTotals[m] == Margin(obs, Bs[m], As, false, Total)
    ensures forall m :: 0 <= m < |Bs| ==> colCounts[m] == MarginCount(obs, Bs[m], As, false)
    ensures cellStats == SummaryTable(obs, As, Bs)
    ensures ssError == Grid(obs, As, Bs, Deviation)
  {
    rowTotals, rowCounts, colTotals, colCounts := rowTotals0, rowCounts0, colTotals0, colCounts0;
    cellStats, ssError := [], 0.0;
    for i := 0 to |As|
      invariant RowsSoFar(obs, As, Bs, i, rowTotals, rowCounts)
      invariant ColumnsSoFar(obs, As, Bs, i, colTotals, colCounts)
      invariant cellStats == SummaryTable(obs, As[..i], Bs)
      invariant ssError == Grid(obs, As[..i], Bs, Deviation)
    {
      var rowTotals', rowCounts', colTotals', colCounts', summaries, ssError' :=
        AccumulateRow(cells, obs, As, Bs, i, rowTotals, rowCounts, colTotals, colCounts, ssError);
      RowsStep(obs, As, Bs, i, rowTotals, rowCounts, rowTotals', rowCounts');
      ColumnsStep(obs, As, Bs, i, colTotals, colCounts, colTotals', colCounts');
      SummaryTablePrefix(obs, As, Bs, i);
      GridPrefix(obs, As, Bs, i, Deviation);
      rowTotals, rowCounts, colTotals, colCounts := rowTotals', rowCounts', colTotals', colCounts';
      cellStats, ssError := cellStats + [summaries], ssError';
    }
    assert As[..|As|] == As;
  }

  /** `foreach ($row_totals as $a_level => $total) $ss_a += pow($total, 2) / $row_counts[$a_level]`
      (and the same over the columns), visiting the levels in key order. */
  method SsFromTotals(ghost obs: seq<Cross>, ghost levels: seq<string>, ghost others: seq<string>, ghost rowMajor: bool,
                      totals: seq<real>, counts: seq<int>) returns (ss: real)
    requires |totals| == |counts| == |levels|
    requires forall m :: 0 <= m < |levels| ==> totals[m] == Margin(obs, levels[m], others, rowMajor, Total)
    requires forall m :: 0 <= m < |levels| ==> counts[m] == MarginCount(obs, levels[m], others, rowMajor) && counts[m] > 0
    ensures ss == MarginSquares(obs, levels, others, rowMajor)
  {
    ss := 0.0;
    for i := 0 to |totals|
      invariant ss == MarginSquares(obs, levels[..i], others, rowMajor)
    {
      var total, count := totals[i], counts[i];
      var term := total * total / (count as real);
      assert ss + term == MarginSquares(obs, levels[..i + 1], others, rowMajor) by {
        assert levels[..i + 1][..i] == levels[..i];
        RatioOfPositive(total, count);
      }
      ss := ss + term;
    }
    assert levels[..|levels|] == levels;
  }

  /** `foreach ($b_data as $b_level => $stats) $ss_cells += pow($stats['sum'], 2) / $stats['n']`
      for one factor A level. */
  method SsRow(row: seq<CellSummary>, ghost obs: seq<Cross>, ghost a: string, ghost Bs: seq<string>)
    returns (ss: real)
    requires row == SummaryRow(obs, a, Bs)
    requires forall j :: 0 <= j < |Bs| ==> |CellValues(obs, a, Bs[j])| >= 2
    ensures ss == Margin(obs, a, Bs, true, Between)
  {
    ss := 0.0;
    for j := 0 to |row|
      invariant ss == Margin(obs, a, Bs[..j], true, Between)
    {
      var stats := row[j];
      ghost var values := CellValues(obs, a, Bs[j]);
      assert stats.sum == Sum(values) && stats.n == |values| > 0;
      var sum, count := stats.sum, stats.n;
      var term := sum * sum / (count as real);
      assert term == CellStat(values, Between) by {
        RatioOfPositive(sum, count);
      }
      MarginPrefix(obs, a, Bs, j, true, Between);
      ss := ss + term;
    }
    assert Bs[..|Bs|] == Bs;
  }

  /** `foreach ($cell_stats as $a_level => $b_data) …`: the sum of
      `sum² / n` over every cell. */
  method SsCells(cellStats: seq<seq<CellSummary>>, ghost obs: seq<Cross>, ghost As: seq<string>, ghost Bs: seq<string>)
    returns (ss: real)
    requires cellStats == SummaryTable(obs, As, Bs) && Complete(obs, As, Bs)
    ensures ss == Grid(obs, As, Bs, Between)
  {
    ss := 0.0;
    for i := 0 to |cellStats|
      invariant ss == Grid(obs, As[..i], Bs, Between)
    {
      var rowSs := SsRow(cellStats[i], obs, As[i], Bs);
      GridPrefix(obs, As, Bs, i, Between);
      ss := ss + rowSs;
    }
    assert As[..|As|] == As;
  }

  /** The mean squares and F ratios, and the result array. */
  method Summarise(ssA: real, ssB: real, ssAB: real, ssError: real, ssTotal: real,
                   dfA: int, dfB: int, dfAB: int, dfError: int, n: int,
                   cellStats: seq<seq<CellSummary>>, As: seq<string>, Bs: seq<string>) returns (table: TwoWayTable)
    requires dfA > 0 && dfB > 0 && dfError > 0
    ensures table == Finish(ssA, ssB, ssAB, ssError, ssTotal, dfA, dfB, dfAB, dfError, n, cellStats, As, Bs)
  {
    var msA := ssA / (dfA as real);
    var msB := ssB / (dfB as real);
    var msAB := 0.0;
    if dfAB > 0 {
      msAB := ssAB / (dfAB as real);
    }
    var msError := ssError / (dfError as real);
    var fA, fB, fAB := 0.0, 0.0, 0.0;
    if msError > 0.0 {
      fA, fB, fAB := msA / msError, msB / msError, msAB / msError;
    }
    table := TwoWayTable(
      Effect(ssA, dfA, msA, fA), Effect(ssB, dfB, msB, fB), Effect(ssAB, dfAB, msAB, fAB),
      Residual(ssError, dfError, msError), TotalRow(ssTotal, n - 1),
      cellStats, As, Bs);
  }

  /** `sort(array_keys($cells))` and `sort($factorB_levels)` are the sorted
      distinct factor levels of the observations. */
  lemma SortedLevels(obs: seq<Cross>, columns: seq<string>)
    requires Distinct(columns)
    requires forall b :: b in columns <==> b in Columns(CellsOf(obs))
    ensures Sort(LevelNames(CellsOf(obs))) == LevelsA(obs)
    ensures Sort(columns) == LevelsB(obs)
  {
    var cells := CellsOf(obs);
    CellsOfMeaning(obs);
    DedupMeaning(FactorA(obs));
    DedupMeaning(FactorB(obs));
    assert Distinct(LevelNames(cells));
    SortUnique(LevelNames(cells), Dedup(FactorA(obs)));
    SortUnique(columns, Dedup(FactorB(obs)));
  }

  /** Tabulate's table from the quantities as the source computes them. */
  lemma TabulateOf(obs: seq<Cross>, As: seq<string>, Bs: seq<string>,
                   ssA: real, ssB: real, ssAB: real, ssError: real, ssTotal: real,
                   dfA: int, dfB: int, dfAB: int, dfError: int, cellStats: seq<seq<CellSummary>>)
    requires |obs| > 0
    requires ssA == SsA(obs, As, Bs) && ssB == SsB(obs, As, Bs) && ssAB == SsAB(obs, As, Bs)
    requires ssError == SsError(obs, As, Bs) && ssTotal == SsTotal(obs)
    requires dfA == |As| - 1 > 0 && dfB == |Bs| - 1 > 0 && dfAB == dfA * dfB && dfError == |obs| - |As| * |Bs| > 0
    requires cellStats == SummaryTable(obs, As, Bs)
    ensures Tabulate(obs, As, Bs) == Table(Finish(ssA, ssB, ssAB, ssError, ssTotal, dfA, dfB, dfAB, dfError, |obs|, cellStats, As, Bs))
  {
    ProductOfPositives(dfA, dfB);
  }

  lemma ProductOfPositives(x: int, y: int)
    requires x > 0 && y > 0
    ensures x * y > 0
  {
  }

  /** In a complete grid every row and column count is positive. */
  lemma CountsPositive(obs: seq<Cross>, As: seq<string>, Bs: seq<string>)
    requires Complete(obs, As, Bs) && |As| > 0 && |Bs| > 0
    ensures forall m :: 0 <= m < |As| ==> MarginCount(obs, As[m], Bs, true) > 0
    ensures forall m :: 0 <= m < |Bs| ==> MarginCount(obs, Bs[m], As, false) > 0
  {
    forall m | 0 <= m < |As| ensures MarginCount(obs, As[m], Bs, true) > 0 {
      MarginCountComplete(obs, As[m], Bs, true);
    }
    forall m | 0 <= m < |Bs| ensures MarginCount(obs, Bs[m], As, false) > 0 {
      MarginCountComplete(obs, Bs[m], As, false);
    }
  }

  /** `calculate_two_way_anova`. */
  method CalculateTwoWayAnova(data: seq<Row>, factorA: string, factorB: string, valueKey: string)
    returns (result: TwoWayOutcome)
    ensures result == TwoWay(data, factorA, factorB, valueKey)
  {
    ghost var obs := Crosses(data, factorA, factorB, valueKey);
    var cells, allValues := CollectCells(data, factorA, factorB, valueKey);
    CellsOfMeaning(obs);
    var columns := CollectColumns(cells);
    var As, Bs := Sort(LevelNames(cells)), Sort(columns);
    SortedLevels(obs, columns);

    var complete := CheckCells(cells, As, Bs);
    if !complete {
      return Failed(CellTooSmall);
    }
    assert Complete(obs, As, Bs);
    if |As| < 2 || |Bs| < 2 {
      return Failed(TooFewLevels);
    }
    LevelsNeedValues(obs);
    result := Analyse(cells, allValues, obs, As, Bs);
  }

  /** The part of `calculate_two_way_anova` after both checks have passed. */
  method Analyse(cells: seq<Level>, allValues: seq<real>, ghost obs: seq<Cross>, As: seq<string>, Bs: seq<string>)
    returns (result: TwoWayOutcome)
    requires forall a, b :: CellAt(cells, a, b) == CellValues(obs, a, b)
    requires allValues == Values(obs) && |obs| > 0
    requires Complete(obs, As, Bs) && |As| >= 2 && |Bs| >= 2
    ensures result == Tabulate(obs, As, Bs)
  {
    var a, b, n := |As|, |Bs|, |allValues|;
    assert n == |obs|;
    var grandTotal := Sum(allValues);
    var grandMean := grandTotal / (n as real);
    var ssTotal := SquaredDeviations(allValues, grandMean);

    var rowTotals, rowCounts := ZeroTotals(As);
    var colTotals, colCounts := ZeroTotals(Bs);
    var cellStats, ssError;
    rowTotals, rowCounts, colTotals, colCounts, cellStats, ssError :=
      AccumulateCells(cells, obs, As, Bs, rowTotals, rowCounts, colTotals, colCounts);

    CountsPositive(obs, As, Bs);
    var correction := grandTotal * grandTotal / (n as real);
    assert correction == Correction(obs) by {
      RatioOfPositive(grandTotal, n);
    }
    var ssA := SsFromTotals(obs, As, Bs, true, rowTotals, rowCounts);
    ssA := ssA - correction;
    var ssB := SsFromTotals(obs, Bs, As, false, colTotals, colCounts);
    ssB := ssB - correction;
    var ssCells := SsCells(cellStats, obs, As, Bs);
    ssCells := ssCells - correction;
    var ssAB := ssCells - ssA - ssB;
    assert ssA == SsA(obs, As, Bs) && ssB == SsB(obs, As, Bs) && ssAB == SsAB(obs, As, Bs);

    var dfA, dfB := a - 1, b - 1;
    var dfAB, dfError := dfA * dfB, n - a * b;
    if dfA <= 0 || dfB <= 0 || dfAB < 0 || dfError <= 0 {
      return Failed(BadDegreesOfFreedom);
    }
    var table := Summarise(ssA, ssB, ssAB, ssError, ssTotal, dfA, dfB, dfAB, dfError, n, cellStats, As, Bs);
    TabulateOf(obs, As, Bs, ssA, ssB, ssAB, ssError, ssTotal, dfA, dfB, dfAB, dfError, cellStats);
    return Table(table);
  }
}
