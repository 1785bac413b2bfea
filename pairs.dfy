/** The order in which `calculate_tukey_hsd`'s nested loops visit the pairs
    of groups: for i = 0 .. k-1, for j = i+1 .. k-1.  Pairs are of indices,
    so these facts are independent of what is compared. */
module PairOrder {

  /** The index pairs (i, j) for j = i+1 .. top-1, in that order: the inner loop. */
  function RowPairs(i: nat, top: nat): seq<(nat, nat)>
    decreases top
  {
    if top <= i + 1 then [] else RowPairs(i, top - 1) + [(i, top - 1)]
  }

  /** The index pairs of the first i outer iterations over k groups. */
  function AllPairs(k: nat, i: nat): seq<(nat, nat)>
    decreases i
  {
    if i == 0 then [] else AllPairs(k, i - 1) + RowPairs(i - 1, k)
  }

  /** Every pair indexes two groups of k. */
  predicate InRange(ps: seq<(nat, nat)>, k: nat)
  {
    forall p :: 0 <= p < |ps| ==> ps[p].0 < k && ps[p].1 < k
  }

  /** The number of pairs (i', j) with i' < i and i' < j < k. */
  function PairsBefore(k: nat, i: nat): nat
    requires i <= k
  {
    if i == 0 then 0 else PairsBefore(k, i - 1) + (k - i)
  }

  /** The position of the comparison of groups a < b among k groups. */
  function PairIndex(k: nat, a: nat, b: nat): nat
    requires a < b < k
  {
    PairsBefore(k, a) + (b - a - 1)
  }

  /** Closed form: twice the count of pairs before row i is `i (2k - i - 1)`. */
  lemma {:induction false} PairsBeforeClosed(k: nat, i: nat)
    requires i <= k
    ensures 2 * PairsBefore(k, i) == i * (2 * k - i - 1)
  {
    if i > 0 {
      PairsBeforeClosed(k, i - 1);
      assert i * (2 * k - i - 1) == (i - 1) * (2 * k - (i - 1) - 1) + 2 * (k - i);
    }
  }

  /** Row i up to top holds the pairs (i, i+1+m), m < top - i - 1. */
  lemma {:induction false} RowPairsShape(i: nat, top: nat)
    ensures |RowPairs(i, top)| == if top <= i + 1 then 0 else top - i - 1
    ensures forall m :: 0 <= m < |RowPairs(i, top)| ==> RowPairs(i, top)[m] == (i, i + 1 + m)
    decreases top
  {
    if top > i + 1 {
      RowPairsShape(i, top - 1);
    }
  }

  /** One position of a row, without a quantifier. */
  lemma {:induction false} RowPairsAt(i: nat, top: nat, m: nat)
    requires i + 1 + m < top
    ensures |RowPairs(i, top)| == top - i - 1
    ensures RowPairs(i, top)[m] == (i, i + 1 + m)
    decreases top
  {
    if i + 1 + m < top - 1 {
      RowPairsAt(i, top - 1, m);
    } else {
      RowPairsShape(i, top - 1);
    }
  }

  /** The first i rows over k groups hold `PairsBefore(k, i)` pairs. */
  lemma {:induction false} AllPairsLength(k: nat, i: nat)
    requires i <= k
    ensures |AllPairs(k, i)| == PairsBefore(k, i)
    decreases i
  {
    if i > 0 {
      AllPairsLength(k, i - 1);
      RowPairsShape(i - 1, k);
    }
  }

  /** Every pair of the first i rows indexes two of the k groups. */
  lemma {:induction false} AllPairsInRange(k: nat, i: nat)
    requires i <= k
    ensures InRange(AllPairs(k, i), k)
    decreases i
  {
    if i > 0 {
      AllPairsInRange(k, i - 1);
      RowPairsShape(i - 1, k);
      var prev: seq<(nat, nat)>, row: seq<(nat, nat)> := AllPairs(k, i - 1), RowPairs(i - 1, k);
      assert AllPairs(k, i) == prev + row;
      forall p | 0 <= p < |prev + row|
        ensures (prev + row)[p].0 < k && (prev + row)[p].1 < k
      {
        if p >= |prev| {
          assert (prev + row)[p] == row[p - |prev|];
        }
      }
    }
  }

  /** The pair (a, b) with a < i sits at `PairIndex(k, a, b)` of the first i rows. */
  lemma AllPairsAt(k: nat, i: nat)
    requires i <= k
    ensures forall a, b :: 0 <= a < i && a < b < k ==>
      && PairIndex(k, a, b) < |AllPairs(k, i)|
      && AllPairs(k, i)[PairIndex(k, a, b)] == (a, b)
  {
    forall a, b | 0 <= a < i && a < b < k
      ensures PairIndex(k, a, b) < |AllPairs(k, i)|
      ensures AllPairs(k, i)[PairIndex(k, a, b)] == (a, b)
    {
      PairAt(k, i, a, b);
    }
  }

  /** AllPairsAt for one pair. */
  lemma {:induction false} PairAt(k: nat, i: nat, a: nat, b: nat)
    requires i <= k && a < i && a < b < k
    ensures PairIndex(k, a, b) < |AllPairs(k, i)| && AllPairs(k, i)[PairIndex(k, a, b)] == (a, b)
    decreases i
  {
    if a < i - 1 {
      PairAt(k, i - 1, a, b);
      EarlierRow(k, i, a, b);
    } else {
      LastRow(k, i, b);
    }
  }

  /** Appending row i - 1 keeps the pairs of the earlier rows where they were. */
  lemma EarlierRow(k: nat, i: nat, a: nat, b: nat)
    requires 0 < i <= k && a < i - 1 && a < b < k
    requires PairIndex(k, a, b) < |AllPairs(k, i - 1)| && AllPairs(k, i - 1)[PairIndex(k, a, b)] == (a, b)
    ensures PairIndex(k, a, b) < |AllPairs(k, i)| && AllPairs(k, i)[PairIndex(k, a, b)] == (a, b)
  {
    AllPairsLast(k, i);
  }

  /** The pairs of row i - 1 follow the earlier rows, in order of b. */
  lemma LastRow(k: nat, i: nat, b: nat)
    requires 0 < i <= k && i - 1 < b < k
    ensures PairIndex(k, i - 1, b) < |AllPairs(k, i)| && AllPairs(k, i)[PairIndex(k, i - 1, b)] == (i - 1, b)
  {
    var prev, row := AllPairs(k, i - 1), RowPairs(i - 1, k);
    AllPairsLength(k, i - 1);
    RowPairsEntry(i - 1, k, b);
    AllPairsLast(k, i);
    assert (prev + row)[|prev| + (b - (i - 1) - 1)] == row[b - (i - 1) - 1];
  }

  /** The pair (i, j) sits at position j - i - 1 of row i. */
  lemma RowPairsEntry(i: nat, top: nat, j: nat)
    requires i < j < top
    ensures |RowPairs(i, top)| == top - i - 1
    ensures RowPairs(i, top)[j - i - 1] == (i, j)
  {
    RowPairsAt(i, top, j - i - 1);
  }

  /** The first i rows are the first i - 1 rows followed by row i - 1. */
  lemma AllPairsLast(k: nat, i: nat)
    requires i > 0
    ensures AllPairs(k, i) == AllPairs(k, i - 1) + RowPairs(i - 1, k)
  {
  }
}
