/** Factor level lists of the two-way analysis: PHP's `sort()` on level names
    under byte-wise string order, and the first-seen list of distinct names
    that `in_array`-guarded appends build. */
module Levels {

  /** The string order `sort()` uses for level names: lexicographic by
      character code, a proper prefix first. */
  predicate Below(x: string, y: string)
    decreases |x|
  {
    if x == [] then y != []
    else if y == [] then false
    else if x[0] != y[0] then x[0] < y[0]
    else Below(x[1..], y[1..])
  }

  /** No name occurs twice. */
  predicate Distinct(s: seq<string>)
  {
    forall i, j :: 0 <= i < j < |s| ==> s[i] != s[j]
  }

  /** Each name is strictly below the ones after it. */
  predicate Increasing(s: seq<string>)
  {
    forall i, j :: 0 <= i < j < |s| ==> Below(s[i], s[j])
  }

  /** Inserts x before the first name that is not below it. */
  function Insert(x: string, s: seq<string>): seq<string>
    decreases |s|
  {
    if s == [] then [x]
    else if Below(s[0], x) then [s[0]] + Insert(x, s[1..])
    else [x] + s
  }

  /** `sort($levels)`. */
  function Sort(s: seq<string>): seq<string>
    decreases |s|
  {
    if s == [] then [] else Insert(s[|s| - 1], Sort(s[..|s| - 1]))
  }

  /** The distinct names of s in the order they are first seen. */
  function Dedup(s: seq<string>): seq<string>
    decreases |s|
  {
    if s == [] then []
    else
      var d := Dedup(s[..|s| - 1]);
      if s[|s| - 1] in d then d else d + [s[|s| - 1]]
  }

  // ---------------------------------------------------------------------
  // The order is strict and total

  lemma {:induction false} BelowIrreflexive(x: string)
    ensures !Below(x, x)
    decreases |x|
  {
    if x != [] {
      BelowIrreflexive(x[1..]);
    }
  }

  lemma {:induction false} BelowAsymmetric(x: string, y: string)
    ensures !(Below(x, y) && Below(y, x))
    decreases |x|
  {
    if x != [] && y != [] && x[0] == y[0] {
      BelowAsymmetric(x[1..], y[1..]);
    }
  }

  lemma {:induction false} BelowTotal(x: string, y: string)
    requires x != y
    ensures Below(x, y) || Below(y, x)
    decreases |x|
  {
    if x != [] && y != [] && x[0] == y[0] {
      assert x == [x[0]] + x[1..] && y == [y[0]] + y[1..];
      BelowTotal(x[1..], y[1..]);
    }
  }

  lemma {:induction false} BelowTransitive(x: string, y: string, z: string)
    requires Below(x, y) && Below(y, z)
    ensures Below(x, z)
    decreases |x|
  {
    if x != [] && y != [] && z != [] && x[0] == y[0] && y[0] == z[0] {
      BelowTransitive(x[1..], y[1..], z[1..]);
    }
  }

  // ---------------------------------------------------------------------
  // Sorting

  /** Inserting adds exactly x. */
  lemma {:induction false} InsertElements(x: string, s: seq<string>)
    ensures multiset(Insert(x, s)) == multiset(s) + multiset{x}
    decreases |s|
  {
    if s != [] && Below(s[0], x) {
      InsertElements(x, s[1..]);
      assert s == [s[0]] + s[1..];
    }
  }

  /** `sort()` rearranges the names: same names, same multiplicities. */
  lemma {:induction false} SortElements(s: seq<string>)
    ensures multiset(Sort(s)) == multiset(s)
    ensures |Sort(s)| == |s|
    decreases |s|
  {
    if s != [] {
      var init := s[..|s| - 1];
      SortElements(init);
      InsertElements(s[|s| - 1], Sort(init));
      assert s == init + [s[|s| - 1]];
      assert |Insert(s[|s| - 1], Sort(init))| == |multiset(Insert(s[|s| - 1], Sort(init)))|;
    }
  }

  /** Inserting a new name into an increasing list keeps it increasing. */
  lemma {:induction false} InsertIncreasing(x: string, s: seq<string>)
    requires Increasing(s) && x !in s
    ensures Increasing(Insert(x, s))
    decreases |s|
  {
    InsertElements(x, s);
    if s != [] {
      if Below(s[0], x) {
        var rest := s[1..];
        assert Increasing(rest);
        InsertIncreasing(x, rest);
        InsertElements(x, rest);
        var r := [s[0]] + Insert(x, rest);
        forall i, j | 0 <= i < j < |r| ensures Below(r[i], r[j]) {
          if i == 0 {
            assert r[j] in multiset(Insert(x, rest));
            assert r[j] in rest || r[j] == x;
            if r[j] in rest {
              var m :| 0 <= m < |rest| && rest[m] == r[j];
              assert s[m + 1] == r[j];
            }
          }
        }
      } else {
        BelowTotal(x, s[0]);
        forall j | 0 < j < |s| ensures Below(x, s[j]) {
          BelowTransitive(x, s[0], s[j]);
        }
      }
    }
  }

  /** Sorting distinct names gives a strictly increasing list. */
  lemma {:induction false} SortIncreasing(s: seq<string>)
    requires Distinct(s)
    ensures Increasing(Sort(s))
    decreases |s|
  {
    if s != [] {
      var init, x := s[..|s| - 1], s[|s| - 1];
      SortIncreasing(init);
      SortElements(init);
      assert x !in init by {
        assert forall m :: 0 <= m < |init| ==> init[m] == s[m];
      }
      assert x !in multiset(Sort(init));
      InsertIncreasing(x, Sort(init));
    }
  }

  /** Two increasing lists holding the same names are the same list. */
  lemma {:induction false} IncreasingUnique(u: seq<string>, w: seq<string>)
    requires Increasing(u) && Increasing(w)
    requires forall x :: x in u <==> x in w
    ensures u == w
    decreases |u|
  {
    if u != [] {
      assert u[0] in w;
    }
    if w != [] {
      assert w[0] in u;
    }
    if u != [] && w != [] {
      assert u[0] == w[0] by {
        var k :| 0 <= k < |w| && w[k] == u[0];
        var m :| 0 <= m < |u| && u[m] == w[0];
        if k > 0 && m > 0 {
          BelowAsymmetric(u[0], w[0]);
        }
      }
      forall x ensures x in u[1..] <==> x in w[1..] {
        TailMember(u, x);
        TailMember(w, x);
      }
      IncreasingUnique(u[1..], w[1..]);
      assert u == [u[0]] + u[1..] && w == [w[0]] + w[1..];
    }
  }

  /** In an increasing list, the names after the first are the others. */
  lemma TailMember(u: seq<string>, x: string)
    requires Increasing(u) && u != []
    ensures x in u[1..] <==> x in u && x != u[0]
  {
    if x in u[1..] {
      var m :| 0 <= m < |u| - 1 && u[1..][m] == x;
      assert Below(u[0], u[m + 1]);
      BelowIrreflexive(x);
    }
    if x in u && x != u[0] {
      var m :| 0 <= m < |u| && u[m] == x;
      assert u[1..][m - 1] == x;
    }
  }

  /** The sorted list depends only on which names there are: two lists of
      the same distinct names, in any order, sort to the same list. */
  lemma SortUnique(s: seq<string>, t: seq<string>)
    requires Distinct(s) && Distinct(t)
    requires forall x :: x in s <==> x in t
    ensures Sort(s) == Sort(t)
  {
    SortSameNames(s);
    SortSameNames(t);
    SortIncreasing(s);
    SortIncreasing(t);
    IncreasingUnique(Sort(s), Sort(t));
  }

  /** Sorting keeps which names there are and their distinctness. */
  lemma SortSameNames(s: seq<string>)
    requires Distinct(s)
    ensures Distinct(Sort(s)) && |Sort(s)| == |s|
    ensures forall x :: x in Sort(s) <==> x in s
  {
    SortElements(s);
    SortIncreasing(s);
    forall i, j | 0 <= i < j < |Sort(s)| ensures Sort(s)[i] != Sort(s)[j] {
      BelowIrreflexive(Sort(s)[i]);
    }
    forall x ensures x in Sort(s) <==> x in s {
      assert x in Sort(s) <==> x in multiset(Sort(s));
      assert x in s <==> x in multiset(s);
    }
  }

  /** The first-seen list holds every name of s exactly once. */
  lemma {:induction false} DedupMeaning(s: seq<string>)
    ensures Distinct(Dedup(s))
    ensures forall x :: x in Dedup(s) <==> x in s
    decreases |s|
  {
    if s != [] {
      var init := s[..|s| - 1];
      DedupMeaning(init);
      assert s == init + [s[|s| - 1]];
    }
  }
}
