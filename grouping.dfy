/** Grouping of response rows by a categorical key, as `calculate_anova`
    builds `$groups[$name][] = $value` and `$all_values[] = $value`, then
    drops the groups with fewer than two values.  PHP's ordered array of
    groups becomes a sequence of named groups in first-seen order. */
module Grouping {
  import opened Sums
  import opened Records
  import opened Wrappers

  /** One named group and its values, in the order the rows supplied them. */
  datatype Group = Group(name: string, values: seq<real>)

  /** What a row contributes: its group name and the answer value. */
  datatype Observation = Observation(group: string, value: real)

  /** The row's observation, or None when either `isset` check fails. */
  function Observe(row: Row, groupKey: string, valueKey: string): Option<Observation>
  {
    if groupKey in row.attrs && valueKey in row.answers
    then Some(Observation(row.attrs[groupKey], row.answers[valueKey] as real))
    else None
  }

  /** The position of the group called name, or |gs| when there is none. */
  function IndexOf(gs: seq<Group>, name: string): (i: nat)
    ensures i <= |gs|
    ensures i < |gs| ==> gs[i].name == name
    ensures forall j :: 0 <= j < i ==> gs[j].name != name
    decreases |gs|
  {
    if gs == [] then 0 else if gs[0].name == name then 0 else 1 + IndexOf(gs[1..], name)
  }

  /** `$groups[$name][] = $v`: append v to the group called name, or open that
      group at the end. */
  function AddValue(gs: seq<Group>, name: string, v: real): seq<Group>
  {
    var i := IndexOf(gs, name);
    if i == |gs| then gs + [Group(name, [v])] else gs[i := Group(name, gs[i].values + [v])]
  }

  /** The groups after the first loop of `calculate_anova` over the rows. */
  function GroupBy(rows: seq<Row>, groupKey: string, valueKey: string): seq<Group>
    decreases |rows|
  {
    if rows == [] then []
    else
      var prev := GroupBy(rows[..|rows| - 1], groupKey, valueKey);
      match Observe(rows[|rows| - 1], groupKey, valueKey)
      case None => prev
      case Some(o) => AddValue(prev, o.group, o.value)
  }

  /** `$all_values`: every observed value, in row order. */
  function AllValues(rows: seq<Row>, groupKey: string, valueKey: string): seq<real>
    decreases |rows|
  {
    if rows == [] then []
    else
      var prev := AllValues(rows[..|rows| - 1], groupKey, valueKey);
      match Observe(rows[|rows| - 1], groupKey, valueKey)
      case None => prev
      case Some(o) => prev + [o.value]
  }

  /** The values a reference reading of "group by" assigns to name: the
      observed values of the rows in that group, in row order. */
  function ValuesOf(rows: seq<Row>, groupKey: string, valueKey: string, name: string): seq<real>
    decreases |rows|
  {
    if rows == [] then []
    else
      var prev := ValuesOf(rows[..|rows| - 1], groupKey, valueKey, name);
      match Observe(rows[|rows| - 1], groupKey, valueKey)
      case None => prev
      case Some(o) => if o.group == name then prev + [o.value] else prev
  }

  /** The groups with at least two values, in their original order (the
      `unset` loop). */
  function Retain(gs: seq<Group>): (r: seq<Group>)
    ensures |r| <= |gs|
    decreases |gs|
  {
    if gs == [] then []
    else
      var prev := Retain(gs[..|gs| - 1]);
      var last := gs[|gs| - 1];
      assert gs == gs[..|gs| - 1] + [last];
      if |last.values| < 2 then prev else prev + [last]
  }

  /** The retained groups are exactly the groups with two or more values. */
  lemma {:induction false} RetainMembers(gs: seq<Group>)
    ensures forall g :: g in Retain(gs) <==> g in gs && |g.values| >= 2
    decreases |gs|
  {
    if gs != [] {
      var last := gs[|gs| - 1];
      RetainMembers(gs[..|gs| - 1]);
      assert gs == gs[..|gs| - 1] + [last];
    }
  }

  /** The number of values in all groups (`$n_total`). */
  function Count(gs: seq<Group>): nat
    decreases |gs|
  {
    if gs == [] then 0 else Count(gs[..|gs| - 1]) + |gs[|gs| - 1].values|
  }

  /** All values of the groups, group after group. */
  function Flatten(gs: seq<Group>): seq<real>
    decreases |gs|
  {
    if gs == [] then [] else Flatten(gs[..|gs| - 1]) + gs[|gs| - 1].values
  }

  /** The names of the groups, in order. */
  function Names(gs: seq<Group>): seq<string>
  {
    seq(|gs|, i requires 0 <= i < |gs| => gs[i].name)
  }

  /** No name occurs twice, as in a PHP array's keys. */
  predicate DistinctNames(gs: seq<Group>)
  {
    forall i, j :: 0 <= i < j < |gs| ==> gs[i].name != gs[j].name
  }

  // ---------------------------------------------------------------------
  // Lemmas about grouping

  lemma {:induction false} CountFlatten(gs: seq<Group>)
    ensures |Flatten(gs)| == Count(gs)
  {
    if gs != [] {
      CountFlatten(gs[..|gs| - 1]);
    }
  }

  /** Replacing one group changes the count by the difference of sizes. */
  lemma {:induction false} CountUpdate(gs: seq<Group>, i: nat, g: Group)
    requires i < |gs|
    ensures Count(gs[i := g]) == Count(gs) - |gs[i].values| + |g.values|
    decreases |gs|
  {
    var init := gs[..|gs| - 1];
    if i == |gs| - 1 {
      assert gs[i := g][..|gs| - 1] == init;
    } else {
      assert gs[i := g][..|gs| - 1] == init[i := g];
      CountUpdate(init, i, g);
    }
  }

  /** Replacing one group changes each power sum of the flattened values by the
      difference of that group's power sums. */
  lemma {:induction false} FlattenUpdate(gs: seq<Group>, i: nat, g: Group, p: nat)
    requires i < |gs| && p <= 2
    ensures PowerSum(Flatten(gs[i := g]), p)
         == PowerSum(Flatten(gs), p) - PowerSum(gs[i].values, p) + PowerSum(g.values, p)
    decreases |gs|
  {
    var init, last := gs[..|gs| - 1], gs[|gs| - 1];
    PowerSumAppend(Flatten(init), last.values, p);
    if i == |gs| - 1 {
      assert gs[i := g][..|gs| - 1] == init;
      PowerSumAppend(Flatten(init), g.values, p);
    } else {
      assert gs[i := g][..|gs| - 1] == init[i := g];
      FlattenUpdate(init, i, g, p);
      PowerSumAppend(Flatten(init[i := g]), last.values, p);
    }
  }

  /** Adding one value adds one to the count. */
  lemma CountAddValue(gs: seq<Group>, name: string, v: real)
    ensures Count(AddValue(gs, name, v)) == Count(gs) + 1
  {
    var i := IndexOf(gs, name);
    if i == |gs| {
      assert (gs + [Group(name, [v])])[..|gs|] == gs;
    } else {
      CountUpdate(gs, i, Group(name, gs[i].values + [v]));
    }
  }

  /** Adding one value adds its power to each power sum of the flattened values. */
  lemma FlattenAddValue(gs: seq<Group>, name: string, v: real, p: nat)
    requires p <= 2
    ensures PowerSum(Flatten(AddValue(gs, name, v)), p) == PowerSum(Flatten(gs), p) + Pow(v, p)
  {
    var i := IndexOf(gs, name);
    if i == |gs| {
      var gs' := gs + [Group(name, [v])];
      assert gs'[..|gs|] == gs;
      PowerSumAppend(Flatten(gs), [v], p);
      assert [v][..0] == [];
    } else {
      var g := Group(name, gs[i].values + [v]);
      FlattenUpdate(gs, i, g, p);
      assert g.values[..|g.values| - 1] == gs[i].values;
    }
  }

  /** Every observed value is in exactly one group: the groups hold as many
      values as `$all_values`, with the same power sums. */
  lemma {:induction false} GroupByCoversAllValues(rows: seq<Row>, groupKey: string, valueKey: string, p: nat)
    requires p <= 2
    ensures Count(GroupBy(rows, groupKey, valueKey)) == |AllValues(rows, groupKey, valueKey)|
    ensures PowerSum(Flatten(GroupBy(rows, groupKey, valueKey)), p) == PowerSum(AllValues(rows, groupKey, valueKey), p)
    decreases |rows|
  {
    if rows != [] {
      var init := rows[..|rows| - 1];
      GroupByCoversAllValues(init, groupKey, valueKey, p);
      match Observe(rows[|rows| - 1], groupKey, valueKey)
      case None =>
      case Some(o) =>
        var prev := GroupBy(init, groupKey, valueKey);
        CountAddValue(prev, o.group, o.value);
        FlattenAddValue(prev, o.group, o.value, p);
        var all := AllValues(init, groupKey, valueKey) + [o.value];
        assert all[..|all| - 1] == AllValues(init, groupKey, valueKey);
    }
  }

  /** Adding a value keeps names distinct, and leaves every other group alone. */
  lemma AddValueShape(gs: seq<Group>, name: string, v: real)
    requires DistinctNames(gs)
    ensures DistinctNames(AddValue(gs, name, v))
    ensures var r := AddValue(gs, name, v);
      forall n :: n in Names(r) <==> n in Names(gs) || n == name
  {
    var r := AddValue(gs, name, v);
    var i := IndexOf(gs, name);
    forall n ensures n in Names(r) <==> n in Names(gs) || n == name {
      if n in Names(r) {
        var j :| 0 <= j < |r| && r[j].name == n;
        if j < |gs| { assert Names(gs)[j] == n; }
      }
      if n in Names(gs) {
        var j :| 0 <= j < |gs| && gs[j].name == n;
        assert Names(r)[j] == n;
      }
      if n == name {
        assert Names(r)[i] == n;
      }
    }
  }

  /** The grouping agrees with the reference reading: the names are distinct,
      each group holds exactly the values of its rows, and a name has a group
      exactly when some row observed it. */
  lemma {:induction false} GroupByMeaning(rows: seq<Row>, groupKey: string, valueKey: string)
    ensures DistinctNames(GroupBy(rows, groupKey, valueKey))
    ensures forall i :: 0 <= i < |GroupBy(rows, groupKey, valueKey)| ==>
      GroupBy(rows, groupKey, valueKey)[i].values == ValuesOf(rows, groupKey, valueKey, GroupBy(rows, groupKey, valueKey)[i].name)
    ensures forall n :: n in Names(GroupBy(rows, groupKey, valueKey)) <==> ValuesOf(rows, groupKey, valueKey, n) != []
    decreases |rows|
  {
    if rows != [] {
      var init := rows[..|rows| - 1];
      var prev := GroupBy(init, groupKey, valueKey);
      GroupByMeaning(init, groupKey, valueKey);
      match Observe(rows[|rows| - 1], groupKey, valueKey)
      case None =>
      case Some(o) =>
        AddValueShape(prev, o.group, o.value);
        var r := AddValue(prev, o.group, o.value);
        var k := IndexOf(prev, o.group);
        forall i | 0 <= i < |r|
          ensures r[i].values == ValuesOf(rows, groupKey, valueKey, r[i].name)
        {
          if i < |prev| && i != k {
            assert r[i] == prev[i];
          } else if i == k && k < |prev| {
            assert r[i].name == o.group;
          } else {
            assert i == |prev| && k == |prev|;
            assert forall j :: 0 <= j < |prev| ==> Names(prev)[j] != o.group;
            assert ValuesOf(init, groupKey, valueKey, o.group) == [];
          }
        }
        forall n ensures n in Names(r) <==> ValuesOf(rows, groupKey, valueKey, n) != [] {
          if n != o.group {
            assert ValuesOf(rows, groupKey, valueKey, n) == ValuesOf(init, groupKey, valueKey, n);
          }
        }
    }
  }

  /** Every retained group has at least two values, so they hold at least
      twice as many values as there are groups. */
  lemma {:induction false} RetainCount(gs: seq<Group>)
    ensures Count(Retain(gs)) >= 2 * |Retain(gs)|
    ensures Count(Retain(gs)) <= Count(gs)
    decreases |gs|
  {
    if gs != [] {
      var init, last := gs[..|gs| - 1], gs[|gs| - 1];
      RetainCount(init);
      if |last.values| >= 2 {
        var r := Retain(init) + [last];
        assert r[..|r| - 1] == Retain(init);
      }
    }
  }

  /** Retaining keeps the relative order and distinct names. */
  lemma {:induction false} RetainDistinct(gs: seq<Group>)
    requires DistinctNames(gs)
    ensures DistinctNames(Retain(gs))
    decreases |gs|
  {
    if gs != [] {
      var init, last := gs[..|gs| - 1], gs[|gs| - 1];
      assert DistinctNames(init);
      RetainDistinct(init);
      RetainMembers(init);
      if |last.values| >= 2 {
        var r := Retain(init) + [last];
        forall i, j | 0 <= i < j < |r| ensures r[i].name != r[j].name {
          if j == |r| - 1 {
            assert r[i] in Retain(init);
            var k :| 0 <= k < |init| && init[k] == r[i];
            assert gs[k] == r[i];
          }
        }
      }
    }
  }

  /** When no group is dropped, the retained groups are all the groups. */
  lemma {:induction false} RetainAll(gs: seq<Group>)
    requires forall g :: g in gs ==> |g.values| >= 2
    ensures Retain(gs) == gs
    decreases |gs|
  {
    if gs != [] {
      var init := gs[..|gs| - 1];
      assert gs == init + [gs[|gs| - 1]];
      RetainAll(init);
    }
  }
}
