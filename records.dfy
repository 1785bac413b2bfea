/** Survey response rows as the analysis page loads them, and the age and
    income brackets its SQL derives from the numeric columns. */
module Records {
  import opened Wrappers

  /** One response row: categorical columns by name (gender, disability and the
      derived age_group and income_group) and the Likert answers by question id.
      A key that is absent stands for a column that PHP's `isset` rejects. */
  datatype Row = Row(attrs: map<string, string>, answers: map<string, int>)

  /** The ten question ids, `q1` to `q10`. */
  const QuestionIds: seq<string> := ["q1", "q2", "q3", "q4", "q5", "q6", "q7", "q8", "q9", "q10"]

  /** The age brackets in ascending order, and the ages at which each next one starts. */
  const AgeGroups: seq<string> := ["20代以下", "30代", "40代", "50代", "60代以上"]
  const AgeCuts: seq<int> := [30, 40, 50, 60]

  /** The income brackets (in units of 10,000 yen) in ascending order, and their cuts. */
  const IncomeGroups: seq<string> := ["400万円未満", "400～800万円", "800万円以上"]
  const IncomeCuts: seq<int> := [400, 800]

  /** Ascending cut points. */
  ghost predicate Ascending(cuts: seq<int>)
  {
    forall i, j :: 0 <= i < j < |cuts| ==> cuts[i] < cuts[j]
  }

  /** x lies in band i of the cuts: at or above `cuts[i-1]` (no bound for the
      first band) and below `cuts[i]` (no bound for the last). */
  predicate InBand(cuts: seq<int>, i: nat, x: int)
    requires i <= |cuts|
  {
    (i == 0 || cuts[i - 1] <= x) && (i == |cuts| || x < cuts[i])
  }

  /** A column value, NULL (None) or a number, lies in bracket i: a number
      by its band, and NULL in the last bracket, because every `WHEN` test on
      NULL is unknown and the `CASE` falls through to its `ELSE`. */
  predicate InBracket(cuts: seq<int>, i: nat, x: Option<int>)
    requires i <= |cuts|
  {
    match x
    case None => i == |cuts|
    case Some(v) => InBand(cuts, i, v)
  }

  /** The SQL `CASE` for age_group, on the nullable `age` column. */
  function AgeGroup(age: Option<int>): (r: string)
    ensures r in AgeGroups
    ensures forall i :: 0 <= i < |AgeGroups| ==> (r == AgeGroups[i] <==> InBracket(AgeCuts, i, age))
    ensures age.None? ==> r == "60代以上"
  {
    match age
    case None => "60代以上"
    case Some(a) =>
      if a < 30 then "20代以下"
      else if 30 <= a <= 39 then "30代"
      else if 40 <= a <= 49 then "40代"
      else if 50 <= a <= 59 then "50代"
      else "60代以上"
  }

  /** The SQL `CASE` for income_group, on the nullable `income` column. */
  function IncomeGroup(income: Option<int>): (r: string)
    ensures r in IncomeGroups
    ensures forall i :: 0 <= i < |IncomeGroups| ==> (r == IncomeGroups[i] <==> InBracket(IncomeCuts, i, income))
    ensures income.None? ==> r == "800万円以上"
  {
    match income
    case None => "800万円以上"
    case Some(v) =>
      if v < 400 then "400万円未満"
      else if 400 <= v <= 799 then "400～800万円"
      else "800万円以上"
  }

  /** Bands are disjoint: below `cuts[i]` and at or above `cuts[j-1]` cannot both hold. */
  lemma BandsDisjoint(cuts: seq<int>, x: int, i: nat, j: nat)
    requires Ascending(cuts) && i < j <= |cuts|
    ensures !(InBand(cuts, i, x) && InBand(cuts, j, x))
  {
    assert cuts[i] <= cuts[j - 1];
  }

  /** With ascending cuts, every x lies in exactly one band. */
  lemma {:induction false} OneBand(cuts: seq<int>, x: int)
    requires Ascending(cuts)
    ensures exists i :: 0 <= i <= |cuts| && InBand(cuts, i, x)
    ensures forall i, j :: 0 <= i <= |cuts| && 0 <= j <= |cuts| ==> (InBand(cuts, i, x) && InBand(cuts, j, x) ==> i == j)
  {
    var k := 0;
    while k < |cuts| && cuts[k] <= x
      invariant 0 <= k <= |cuts|
      invariant k > 0 ==> cuts[k - 1] <= x
    {
      k := k + 1;
    }
    assert InBand(cuts, k, x);
    forall i, j | 0 <= i <= |cuts| && 0 <= j <= |cuts|
      ensures InBand(cuts, i, x) && InBand(cuts, j, x) ==> i == j
    {
      if i < j {
        BandsDisjoint(cuts, x, i, j);
      } else if j < i {
        BandsDisjoint(cuts, x, j, i);
      }
    }
  }

  /** A value, NULL included, lies in exactly one bracket. */
  lemma OneBracket(cuts: seq<int>, x: Option<int>)
    requires Ascending(cuts)
    ensures exists i :: 0 <= i <= |cuts| && InBracket(cuts, i, x)
    ensures forall i, j :: 0 <= i <= |cuts| && 0 <= j <= |cuts| ==> (InBracket(cuts, i, x) && InBracket(cuts, j, x) ==> i == j)
  {
    match x
    case None =>
      assert InBracket(cuts, |cuts|, x);
    case Some(v) =>
      OneBand(cuts, v);
      var i :| 0 <= i <= |cuts| && InBand(cuts, i, v);
      assert InBracket(cuts, i, x);
  }

  /** Every age, NULL included, falls in exactly one of the five brackets,
      and the bracket names are distinct. */
  lemma AgeBracketsPartition(age: Option<int>)
    ensures exists i :: 0 <= i < |AgeGroups| && AgeGroup(age) == AgeGroups[i]
    ensures forall i, j :: 0 <= i < j < |AgeGroups| ==> AgeGroups[i] != AgeGroups[j]
    ensures forall i, j :: 0 <= i < |AgeGroups| && 0 <= j < |AgeGroups| ==>
      (InBracket(AgeCuts, i, age) && InBracket(AgeCuts, j, age) ==> i == j)
  {
    OneBracket(AgeCuts, age);
    var i :| 0 <= i <= |AgeCuts| && InBracket(AgeCuts, i, age);
    assert AgeGroup(age) == AgeGroups[i];
  }

  /** Every income, NULL included, falls in exactly one of the three
      brackets, and the bracket names are distinct. */
  lemma IncomeBracketsPartition(income: Option<int>)
    ensures exists i :: 0 <= i < |IncomeGroups| && IncomeGroup(income) == IncomeGroups[i]
    ensures forall i, j :: 0 <= i < j < |IncomeGroups| ==> IncomeGroups[i] != IncomeGroups[j]
    ensures forall i, j :: 0 <= i < |IncomeGroups| && 0 <= j < |IncomeGroups| ==>
      (InBracket(IncomeCuts, i, income) && InBracket(IncomeCuts, j, income) ==> i == j)
  {
    OneBracket(IncomeCuts, income);
    var i :| 0 <= i <= |IncomeCuts| && InBracket(IncomeCuts, i, income);
    assert IncomeGroup(income) == IncomeGroups[i];
  }
}
