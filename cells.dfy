/** The cross-tabulation of `calculate_two_way_anova`: the rows' values filed
    under their factor A and factor B levels (`$cells[$a][$b][] = $value`),
    and the per-cell and per-margin sums the sums of squares are built from. */
module CrossTable {
  import opened Sums
  import opened Records
  import opened Wrappers
  import opened Grouping
  import opened Levels

  /** What a row contributes: its two factor levels and the answer value. */
  datatype Cross = Cross(a: string, b: string, value: real)

  /** One factor A level of `$cells` and its factor B cells, in first-seen order. */
  datatype Level = Level(name: string, cols: seq<Group>)

  /** The row's observation, or None when one of the three `isset` checks fails. */
  function CrossOf(row: Row, factorA: string, factorB: string, valueKey: string): Option<Cross>
  {
    if factorA in row.attrs && factorB in row.attrs && valueKey in row.answers
    then Some(Cross(row.attrs[factorA], row.attrs[factorB], row.answers[valueKey] as real))
    else None
  }

  /** The observations of the rows that pass the `isset` checks, in row order. */
  function Crosses(rows: seq<Row>, factorA: string, factorB: string, valueKey: string): seq<Cross>
    decreases |rows|
  {
    if rows == [] then []
    else
      var prev := Crosses(rows[..|rows| - 1], factorA, factorB, valueKey);
      match CrossOf(rows[|rows| - 1], factorA, factorB, valueKey)
      case None => prev
      case Some(o) => prev + [o]
  }

  /** `$all_values`. */
  function Values(obs: seq<Cross>): seq<real>
  {
    seq(|obs|, i requires 0 <= i < |obs| => obs[i].value)
  }

  /** The factor A level of every observation. */
  function FactorA(obs: seq<Cross>): seq<string>
  {
    seq(|obs|, i requires 0 <= i < |obs| => obs[i].a)
  }

  /** The factor B level of every observation. */
  function FactorB(obs: seq<Cross>): seq<string>
  {
    seq(|obs|, i requires 0 <= i < |obs| => obs[i].b)
  }

  /** The reference reading of a cell: the values observed at levels a and b,
      in row order. */
  function CellValues(obs: seq<Cross>, a: string, b: string): seq<real>
    decreases |obs|
  {
    if obs == [] then []
    else
      var prev := CellValues(obs[..|obs| - 1], a, b);
      var o := obs[|obs| - 1];
      if o.a == a && o.b == b then prev + [o.value] else prev
  }

  // ---------------------------------------------------------------------
  // The `$cells` table

  /** The position of the level called a, or |cells| when there is none. */
  function LevelIndex(cells: seq<Level>, a: string): (i: nat)
    ensures i <= |cells|
    ensures i < |cells| ==> cells[i].name == a
    ensures forall j :: 0 <= j < i ==> cells[j].name != a
    decreases |cells|
  {
    if cells == [] then 0 else if cells[0].name == a then 0 else 1 + LevelIndex(cells[1..], a)
  }

  /** `array_keys($cells)`. */
  function LevelNames(cells: seq<Level>): seq<string>
  {
    seq(|cells|, i requires 0 <= i < |cells| => cells[i].name)
  }

  /** The factor B levels that occur under some factor A level. */
  function Columns(cells: seq<Level>): set<string>
  {
    set i, b | 0 <= i < |cells| && b in Names(cells[i].cols) :: b
  }

  /** Distinct keys at both depths, as in a nested PHP array. */
  predicate WellFormed(cells: seq<Level>)
  {
    && (forall i, j :: 0 <= i < j < |cells| ==> cells[i].name != cells[j].name)
    && (forall i :: 0 <= i < |cells| ==> DistinctNames(cells[i].cols))
  }

  /** The values of the group called b, or none when it is not set. */
  function Lookup(gs: seq<Group>, b: string): seq<real>
  {
    var j := IndexOf(gs, b);
    if j == |gs| then [] else gs[j].values
  }

  /** `$cells[$a][$b]`, with no values when it is not set. */
  function CellAt(cells: seq<Level>, a: string, b: string): seq<real>
  {
    var i := LevelIndex(cells, a);
    if i == |cells| then [] else Lookup(cells[i].cols, b)
  }

  /** `$cells[$a][$b][] = $v`. */
  function AddCell(cells: seq<Level>, a: string, b: string, v: real): seq<Level>
  {
    var i := LevelIndex(cells, a);
    if i == |cells| then cells + [Level(a, [Group(b, [v])])]
    else cells[i := Level(a, AddValue(cells[i].cols, b, v))]
  }

  /** The table after the first loop of `calculate_two_way_anova`. */
  function CellsOf(obs: seq<Cross>): seq<Level>
    decreases |obs|
  {
    if obs == [] then []
    else
      var o := obs[|obs| - 1];
      AddCell(CellsOf(obs[..|obs| - 1]), o.a, o.b, o.value)
  }

  // ---------------------------------------------------------------------
  // What the table holds

  /** In a list of distinct names, a position holding b is b's index. */
  lemma GroupIndexAt(gs: seq<Group>, b: string, j: nat)
    requires DistinctNames(gs) && j < |gs| && gs[j].name == b
    ensures IndexOf(gs, b) == j
  {
  }

  lemma LevelIndexAt(cells: seq<Level>, a: string, i: nat)
    requires WellFormed(cells) && i < |cells| && cells[i].name == a
    ensures LevelIndex(cells, a) == i
  {
  }

  /** Filing v under b appends it to b's values and to nothing else. */
  lemma LookupAddValue(gs: seq<Group>, b0: string, v: real, b: string)
    requires DistinctNames(gs)
    ensures Lookup(AddValue(gs, b0, v), b) == Lookup(gs, b) + (if b == b0 then [v] else [])
  {
    AddValueShape(gs, b0, v);
    var r := AddValue(gs, b0, v);
    var i, j := IndexOf(gs, b0), IndexOf(gs, b);
    if j < |gs| {
      GroupIndexAt(r, b, j);
    } else if b == b0 {
      GroupIndexAt(r, b, |gs|);
    } else {
      assert b !in Names(gs) by {
        assert forall m :: 0 <= m < |gs| ==> Names(gs)[m] == gs[m].name;
      }

    }
  }

  /** Filing v under (a0, b0) appends it to that cell only, keeps the keys
      distinct, and adds a0 to the levels and b0 to the columns. */
  lemma AddCellMeaning(cells: seq<Level>, a0: string, b0: string, v: real)
    requires WellFormed(cells)
    ensures var r := AddCell(cells, a0, b0, v);
      && WellFormed(r)
      && (forall a, b :: CellAt(r, a, b) == CellAt(cells, a, b) + (if a == a0 && b == b0 then [v] else []))
      && (forall a :: a in LevelNames(r) <==> a in LevelNames(cells) || a == a0)
      && Columns(r) == Columns(cells) + {b0}
  {
    AddCellWellFormed(cells, a0, b0, v);
    forall a, b ensures CellAt(AddCell(cells, a0, b0, v), a, b) == CellAt(cells, a, b) + (if a == a0 && b == b0 then [v] else []) {
      AddCellAt(cells, a0, b0, v, a, b);
    }
    AddCellLevels(cells, a0, b0, v);
    AddCellColumns(cells, a0, b0, v);
  }

  lemma AddCellWellFormed(cells: seq<Level>, a0: string, b0: string, v: real)
    requires WellFormed(cells)
    ensures WellFormed(AddCell(cells, a0, b0, v))
    ensures forall m :: 0 <= m < |cells| ==> AddCell(cells, a0, b0, v)[m].name == cells[m].name
  {
    var i := LevelIndex(cells, a0);
    if i < |cells| {
      AddValueShape(cells[i].cols, b0, v);
    }
  }

  lemma AddCellAt(cells: seq<Level>, a0: string, b0: string, v: real, a: string, b: string)
    requires WellFormed(cells)
    ensures CellAt(AddCell(cells, a0, b0, v), a, b) == CellAt(cells, a, b) + (if a == a0 && b == b0 then [v] else [])
  {
    var r := AddCell(cells, a0, b0, v);
    AddCellWellFormed(cells, a0, b0, v);
    var i, k := LevelIndex(cells, a0), LevelIndex(cells, a);
    if k < |cells| {
      LevelIndexAt(r, a, k);
      if k == i {
        LookupAddValue(cells[i].cols, b0, v, b);
      }
    } else if a == a0 {
      LevelIndexAt(r, a, |cells|);
    } else {
      assert LevelIndex(r, a) == |r|;
    }
  }

  lemma AddCellLevels(cells: seq<Level>, a0: string, b0: string, v: real)
    requires WellFormed(cells)
    ensures forall a :: a in LevelNames(AddCell(cells, a0, b0, v)) <==> a in LevelNames(cells) || a == a0
  {
    var r := AddCell(cells, a0, b0, v);
    AddCellWellFormed(cells, a0, b0, v);
    var i := LevelIndex(cells, a0);
    forall a ensures a in LevelNames(r) <==> a in LevelNames(cells) || a == a0 {
      if a in LevelNames(cells) {
        var m :| 0 <= m < |cells| && LevelNames(cells)[m] == a;
        assert LevelNames(r)[m] == a;
      }
      if a == a0 {
        assert LevelNames(r)[i] == a;
      }
      if a in LevelNames(r) {
        var m :| 0 <= m < |r| && LevelNames(r)[m] == a;
        if m < |cells| {
          assert LevelNames(cells)[m] == a;
        }
      }
    }
  }

  lemma AddCellColumns(cells: seq<Level>, a0: string, b0: string, v: real)
    requires WellFormed(cells)
    ensures Columns(AddCell(cells, a0, b0, v)) == Columns(cells) + {b0}
  {
    var i := LevelIndex(cells, a0);
    if i == |cells| {
      ColumnsAppend(cells, Level(a0, [Group(b0, [v])]));
      assert Names([Group(b0, [v])]) == [b0];
    } else {
      AddValueShape(cells[i].cols, b0, v);
      ColumnsUpdate(cells, i, Level(a0, AddValue(cells[i].cols, b0, v)), b0);
    }
  }

  /** Columns of a table with one more level. */
  lemma ColumnsAppend(cells: seq<Level>, level: Level)
    ensures Columns(cells + [level]) == Columns(cells) + set b | b in Names(level.cols)
  {
    var r := cells + [level];
    forall b | b in Columns(r) ensures b in Columns(cells) || b in Names(level.cols) {
      var i :| 0 <= i < |r| && b in Names(r[i].cols);
      if i < |cells| {
        assert b in Names(cells[i].cols);
      }
    }
    forall b | b in Columns(cells) ensures b in Columns(r) {
      var i :| 0 <= i < |cells| && b in Names(cells[i].cols);
      assert b in Names(r[i].cols);
    }
    forall b | b in Names(level.cols) ensures b in Columns(r) {
      assert b in Names(r[|cells|].cols);
    }
  }

  /** Columns after filing column b0 into level i. */
  lemma ColumnsUpdate(cells: seq<Level>, i: nat, level: Level, b0: string)
    requires i < |cells|
    requires forall b :: b in Names(level.cols) <==> b in Names(cells[i].cols) || b == b0
    ensures Columns(cells[i := level]) == Columns(cells) + {b0}
  {
    var r := cells[i := level];
    forall b | b in Columns(r) ensures b in Columns(cells) || b == b0 {
      var k :| 0 <= k < |r| && b in Names(r[k].cols);
      if k != i {
        assert b in Names(cells[k].cols);
      } else if b != b0 {
        assert b in Names(cells[i].cols);
      }
    }
    forall b | b in Columns(cells) ensures b in Columns(r) {
      var k :| 0 <= k < |cells| && b in Names(cells[k].cols);
      if k == i {
        assert b in Names(level.cols);
      }
      assert b in Names(r[k].cols);
    }
    assert b0 in Names(r[i].cols);
  }

  /** The table read as the reference: its keys are distinct, every cell holds
      exactly the values observed at its two levels, the factor A levels are
      the observed ones, and so are the factor B levels under them. */
  lemma {:induction false} CellsOfMeaning(obs: seq<Cross>)
    ensures WellFormed(CellsOf(obs))
    ensures forall a, b :: CellAt(CellsOf(obs), a, b) == CellValues(obs, a, b)
    ensures forall a :: a in LevelNames(CellsOf(obs)) <==> a in FactorA(obs)
    ensures forall b :: b in Columns(CellsOf(obs)) <==> b in FactorB(obs)
    decreases |obs|
  {
    if obs != [] {
      var init, o := obs[..|obs| - 1], obs[|obs| - 1];
      CellsOfMeaning(init);
      AddCellMeaning(CellsOf(init), o.a, o.b, o.value);
      assert FactorA(obs) == FactorA(init) + [o.a];
      assert FactorB(obs) == FactorB(init) + [o.b];
    }
  }

  // ---------------------------------------------------------------------
  // Sums over cells and margins

  /** The per-cell quantities the sums of squares add up: the count, the
      total, the sum of squares, the squared deviations from the cell mean,
      and `sum² / n`. */
  datatype Stat = Size | Total | Squares | Deviation | Between

  /** `t² / n`, the shape of every between-levels term; nothing for no values. */
  function Ratio(t: real, n: nat): real
  {
    if n == 0 then 0.0 else t * t / (n as real)
  }

  lemma RatioOfPositive(t: real, n: nat)
    requires n > 0
    ensures Ratio(t, n) == t * t / (n as real)
  {
  }

  function CellStat(vs: seq<real>, k: Stat): real
  {
    match k
    case Size => |vs| as real
    case Total => Sum(vs)
    case Squares => PowerSum(vs, 2)
    case Deviation => if vs == [] then 0.0 else SqDev(vs, Mean(vs))
    case Between => Ratio(Sum(vs), |vs|)
  }

  /** Cell (x, y) when x is a factor A level (rowMajor), else cell (y, x). */
  function Entry(obs: seq<Cross>, x: string, y: string, rowMajor: bool): seq<real>
  {
    if rowMajor then CellValues(obs, x, y) else CellValues(obs, y, x)
  }

  /** The statistic summed over the cells of level x, across `others`. */
  function Margin(obs: seq<Cross>, x: string, others: seq<string>, rowMajor: bool, k: Stat): real
    decreases |others|
  {
    if others == [] then 0.0
    else Margin(obs, x, others[..|others| - 1], rowMajor, k) + CellStat(Entry(obs, x, others[|others| - 1], rowMajor), k)
  }

  /** A margin over one more level of `others`. */
  lemma MarginPrefix(obs: seq<Cross>, x: string, others: seq<string>, j: nat, rowMajor: bool, k: Stat)
    requires j < |others|
    ensures Margin(obs, x, others[..j + 1], rowMajor, k)
         == Margin(obs, x, others[..j], rowMajor, k) + CellStat(Entry(obs, x, others[j], rowMajor), k)
    ensures MarginCount(obs, x, others[..j + 1], rowMajor)
         == MarginCount(obs, x, others[..j], rowMajor) + |Entry(obs, x, others[j], rowMajor)|
  {
    assert others[..j + 1][..j] == others[..j];
  }

  /** The number of values at level x, across `others` (`$row_counts`, `$col_counts`). */
  function MarginCount(obs: seq<Cross>, x: string, others: seq<string>, rowMajor: bool): nat
    decreases |others|
  {
    if others == [] then 0
    else MarginCount(obs, x, others[..|others| - 1], rowMajor) + |Entry(obs, x, others[|others| - 1], rowMajor)|
  }

  /** The statistic summed over every cell of the grid As × Bs. */
  function Grid(obs: seq<Cross>, As: seq<string>, Bs: seq<string>, k: Stat): real
    decreases |As|
  {
    if As == [] then 0.0 else Grid(obs, As[..|As| - 1], Bs, k) + Margin(obs, As[|As| - 1], Bs, true, k)
  }

  /** `Σ total² / count` over the levels: the raw sum behind `$ss_a` and `$ss_b`. */
  function MarginSquares(obs: seq<Cross>, levels: seq<string>, others: seq<string>, rowMajor: bool): real
    decreases |levels|
  {
    if levels == [] then 0.0
    else
      var x := levels[|levels| - 1];
      MarginSquares(obs, levels[..|levels| - 1], others, rowMajor)
        + Ratio(Margin(obs, x, others, rowMajor, Total), MarginCount(obs, x, others, rowMajor))
  }

  /** Every cell of the grid has at least two values. */
  predicate Complete(obs: seq<Cross>, As: seq<string>, Bs: seq<string>)
  {
    forall i, j :: 0 <= i < |As| && 0 <= j < |Bs| ==> |CellValues(obs, As[i], Bs[j])| >= 2
  }

  /** The statistics that add up value by value. */
  predicate Additive(k: Stat)
  {
    k == Size || k == Total || k == Squares
  }

  /** What one value adds to an additive statistic. */
  function Contribution(v: real, k: Stat): real
  {
    match k
    case Size => 1.0
    case Total => v
    case Squares => v * v
    case _ => 0.0
  }

  // ---------------------------------------------------------------------
  // Every value is in exactly one cell

  lemma CellStatSnoc(vs: seq<real>, v: real, k: Stat)
    requires Additive(k)
    ensures CellStat(vs + [v], k) == CellStat(vs, k) + Contribution(v, k)
  {
    assert (vs + [v])[..|vs|] == vs;
  }

  /** One more observation adds its contribution to the margin of its own
      factor A level, when its factor B level is among `others`. */
  lemma {:induction false} MarginSnoc(obs: seq<Cross>, o: Cross, x: string, others: seq<string>, k: Stat)
    requires Additive(k) && Distinct(others)
    ensures Margin(obs + [o], x, others, true, k)
         == Margin(obs, x, others, true, k) + (if o.a == x && o.b in others then Contribution(o.value, k) else 0.0)
    decreases |others|
  {
    if others != [] {
      var init, y := others[..|others| - 1], others[|others| - 1];
      assert Distinct(init);
      MarginSnoc(obs, o, x, init, k);
      assert (obs + [o])[..|obs|] == obs;
      if o.a == x && o.b == y {
        CellStatSnoc(CellValues(obs, x, y), o.value, k);
        assert o.b !in init;
      }
      assert others == init + [y];
    }
  }

  lemma {:induction false} GridSnoc(obs: seq<Cross>, o: Cross, As: seq<string>, Bs: seq<string>, k: Stat)
    requires Additive(k) && Distinct(As) && Distinct(Bs)
    ensures Grid(obs + [o], As, Bs, k)
         == Grid(obs, As, Bs, k) + (if o.a in As && o.b in Bs then Contribution(o.value, k) else 0.0)
    decreases |As|
  {
    if As != [] {
      var init, x := As[..|As| - 1], As[|As| - 1];
      assert Distinct(init);
      GridSnoc(obs, o, init, Bs, k);
      MarginSnoc(obs, o, x, Bs, k);
      if o.a == x {
        assert o.a !in init;
      }
      assert As == init + [x];
    }
  }

  lemma {:induction false} MarginEmpty(x: string, others: seq<string>, k: Stat)
    ensures Margin([], x, others, true, k) == 0.0
    decreases |others|
  {
    if others != [] {
      MarginEmpty(x, others[..|others| - 1], k);
    }
  }

  lemma {:induction false} GridEmpty(As: seq<string>, Bs: seq<string>, k: Stat)
    ensures Grid([], As, Bs, k) == 0.0
    decreases |As|
  {
    if As != [] {
      GridEmpty(As[..|As| - 1], Bs, k);
      MarginEmpty(As[|As| - 1], Bs, k);
    }
  }

  /** When every observation's levels are in the grid, the cells partition
      the values: counts, totals and sums of squares over the cells are those
      of `$all_values`. */
  lemma {:induction false} Partition(obs: seq<Cross>, As: seq<string>, Bs: seq<string>, k: Stat)
    requires Additive(k) && Distinct(As) && Distinct(Bs)
    requires forall i :: 0 <= i < |obs| ==> obs[i].a in As && obs[i].b in Bs
    ensures Grid(obs, As, Bs, k) == CellStat(Values(obs), k)
    decreases |obs|
  {
    if obs == [] {
      GridEmpty(As, Bs, k);
    } else {
      var init, o := obs[..|obs| - 1], obs[|obs| - 1];
      Partition(init, As, Bs, k);
      assert obs == init + [o];
      GridSnoc(init, o, As, Bs, k);
      assert Values(obs) == Values(init) + [o.value];
      CellStatSnoc(Values(init), o.value, k);
    }
  }

  // ---------------------------------------------------------------------
  // Within and between cells

  /** In each cell, the squared deviations from the cell mean plus `sum² / n`
      are the sum of squares. */
  lemma CellSplit(vs: seq<real>)
    ensures CellStat(vs, Deviation) + CellStat(vs, Between) == CellStat(vs, Squares)
  {
    if vs != [] {
      SqDevAroundMean(vs);
    }
  }

  lemma {:induction false} MarginSplit(obs: seq<Cross>, x: string, others: seq<string>)
    ensures Margin(obs, x, others, true, Deviation) + Margin(obs, x, others, true, Between)
         == Margin(obs, x, others, true, Squares)
    decreases |others|
  {
    if others != [] {
      MarginSplit(obs, x, others[..|others| - 1]);
      CellSplit(Entry(obs, x, others[|others| - 1], true));
    }
  }

  lemma {:induction false} GridSplit(obs: seq<Cross>, As: seq<string>, Bs: seq<string>)
    ensures Grid(obs, As, Bs, Deviation) + Grid(obs, As, Bs, Between) == Grid(obs, As, Bs, Squares)
    decreases |As|
  {
    if As != [] {
      GridSplit(obs, As[..|As| - 1], Bs);
      MarginSplit(obs, As[|As| - 1], Bs);
    }
  }

  // ---------------------------------------------------------------------
  // Counts on a complete grid

  /** On a complete grid, each level's margin holds at least two values per
      cell, so no `$row_counts` or `$col_counts` entry is zero. */
  lemma {:induction false} MarginCountComplete(obs: seq<Cross>, x: string, others: seq<string>, rowMajor: bool)
    requires forall j :: 0 <= j < |others| ==> |Entry(obs, x, others[j], rowMajor)| >= 2
    ensures MarginCount(obs, x, others, rowMajor) >= 2 * |others|
    ensures MarginCount(obs, x, others, rowMajor) as real == Margin(obs, x, others, rowMajor, Size)
    decreases |others|
  {
    if others != [] {
      MarginCountComplete(obs, x, others[..|others| - 1], rowMajor);
    }
  }

  /** On a complete grid there are at least two values per cell. */
  lemma {:induction false} GridSizeComplete(obs: seq<Cross>, As: seq<string>, Bs: seq<string>)
    requires Complete(obs, As, Bs)
    ensures Grid(obs, As, Bs, Size) >= (2 * |As| * |Bs|) as real
    decreases |As|
  {
    if As != [] {
      var init := As[..|As| - 1];
      assert Complete(obs, init, Bs);
      GridSizeComplete(obs, init, Bs);
      MarginCountComplete(obs, As[|As| - 1], Bs, true);
      assert 2 * |As| * |Bs| == 2 * |init| * |Bs| + 2 * |Bs|;
    }
  }
}
