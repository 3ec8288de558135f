/** Label statistics of the hand-written random forest (backend/custom_rf.py):
    the `Counter` of a label list, its Gini impurity, and the majority label
    `Counter(y).most_common(1)[0][0]`. Labels are integers, as the learner's
    default leaf value 0 and its 0/1 probability columns show. Python floats
    are modelled by exact rationals (`real`). */
module Impurity {

  /** `Counter(y)[c]`: how often label `c` occurs in `y`. */
  function Count(y: seq<int>, c: int): nat
  {
    multiset(y)[c]
  }

  predicate NoDups(d: seq<int>)
  {
    forall i, j :: 0 <= i < j < |d| ==> d[i] != d[j]
  }

  /** Every element of `y` is the same label: `len(set(y)) == 1` for non-empty `y`. */
  predicate AllSame(y: seq<int>)
  {
    forall i, j :: 0 <= i < |y| && 0 <= j < |y| ==> y[i] == y[j]
  }

  /** The keys of `Counter(y)` in insertion order: each label once, in the
      order of its first occurrence. */
  function Distinct(y: seq<int>): (d: seq<int>)
    ensures NoDups(d)
    ensures forall i :: 0 <= i < |d| ==> d[i] in y
    ensures forall i :: 0 <= i < |y| ==> y[i] in d
    ensures |d| <= |y|
  {
    if y == [] then []
    else
      var p := y[..|y| - 1];
      var d := Distinct(p);
      assert forall i :: 0 <= i < |p| ==> p[i] == y[i];
      if y[|y| - 1] in d then d else d + [y[|y| - 1]]
  }

  /** The sum of the counts of the labels in `d`. */
  function SumCounts(d: seq<int>, y: seq<int>): nat
  {
    if d == [] then 0 else SumCounts(d[..|d| - 1], y) + Count(y, d[|d| - 1])
  }

  /** The sum of the squared counts of the labels in `d`. */
  function SumSquaredCounts(d: seq<int>, y: seq<int>): nat
  {
    if d == [] then 0
    else SumSquaredCounts(d[..|d| - 1], y) + Count(y, d[|d| - 1]) * Count(y, d[|d| - 1])
  }

  /** `sum((c / n)**2 for c in counts)` over the counts of the labels in `d`. */
  function SquaredShares(d: seq<int>, y: seq<int>, n: nat): real
    requires n > 0
  {
    if d == [] then 0.0
    else
      var share := Count(y, d[|d| - 1]) as real / n as real;
      SquaredShares(d[..|d| - 1], y, n) + share * share
  }

  /** `gini(y)` (custom_rf.py lines 5-8): one minus the sum of the squared label
      shares. An empty list has no counts, so nothing is divided and the
      impurity is 1. */
  function Gini(y: seq<int>): real
  {
    if |y| == 0 then 1.0 else 1.0 - SquaredShares(Distinct(y), y, |y|)
  }

  /** Appending one more label to `y` raises the counts summed over `d` by one
      exactly when that label is in `d`. */
  lemma {:induction false} SumCountsBump(d: seq<int>, y: seq<int>, x: int)
    requires NoDups(d)
    ensures SumCounts(d, y + [x]) == SumCounts(d, y) + (if x in d then 1 else 0)
  {
    assert multiset(y + [x]) == multiset(y) + multiset{x};
    if d != [] {
      var p := d[..|d| - 1];
      assert NoDups(p);
      SumCountsBump(p, y, x);
      assert x in d <==> x in p || x == d[|d| - 1];
      assert x == d[|d| - 1] ==> x !in p;
    }
  }

  /** The counts of `Counter(y)` add up to `len(y)`. */
  lemma {:induction false} CountsSumToLength(y: seq<int>)
    ensures SumCounts(Distinct(y), y) == |y|
  {
    if y != [] {
      var p := y[..|y| - 1];
      var x := y[|y| - 1];
      assert y == p + [x];
      var d := Distinct(p);
      CountsSumToLength(p);
      SumCountsBump(d, p, x);
      if x !in d {
        assert (d + [x])[..|d + [x]| - 1] == d;
        assert x !in p;
        assert multiset(y) == multiset(p) + multiset{x};
        assert Count(y, x) == 1;
      }
    }
  }

  /** Every label of `Counter(y)` occurs at least once. */
  lemma DistinctCountsPositive(y: seq<int>)
    ensures forall i :: 0 <= i < |Distinct(y)| ==> Count(y, Distinct(y)[i]) >= 1
  {
  }

  /** For positive counts the sum of squares is at most the square of the sum,
      strictly below it once two labels are present, and at least 1 once one is. */
  lemma {:induction false} SquaresBelowSquaredSum(d: seq<int>, y: seq<int>)
    requires forall i :: 0 <= i < |d| ==> Count(y, d[i]) >= 1
    ensures SumSquaredCounts(d, y) <= SumCounts(d, y) * SumCounts(d, y)
    ensures |d| >= 2 ==> SumSquaredCounts(d, y) < SumCounts(d, y) * SumCounts(d, y)
    ensures |d| >= 1 ==> SumSquaredCounts(d, y) >= 1 && SumCounts(d, y) >= 1
  {
    if d != [] {
      var p := d[..|d| - 1];
      var a := Count(y, d[|d| - 1]);
      SquaresBelowSquaredSum(p, y);
      SquareStep(SumSquaredCounts(p, y), SumCounts(p, y), a);
    }
  }

  /** Adding a positive count `a` to a sum `s` whose squares total `q <= s * s`
      keeps the bound, strictly once `s` is positive. */
  lemma SquareStep(q: nat, s: nat, a: nat)
    requires q <= s * s && a >= 1
    ensures q + a * a <= (s + a) * (s + a)
    ensures s >= 1 ==> q + a * a < (s + a) * (s + a)
    ensures q + a * a >= 1
  {
    assert (s + a) * (s + a) == s * s + 2 * (a * s) + a * a;
    assert a * a >= a;
    assert a * s >= s;
  }

  /** Summing squared shares equals dividing the sum of squared counts by `n * n`. */
  lemma {:induction false} SquaredSharesAsFraction(d: seq<int>, y: seq<int>, n: nat)
    requires n > 0
    ensures SquaredShares(d, y, n) == SumSquaredCounts(d, y) as real / (n * n) as real
  {
    if d != [] {
      var p := d[..|d| - 1];
      var c := Count(y, d[|d| - 1]);
      SquaredSharesAsFraction(p, y, n);
      SquareOfRatio(c, n);
      SharesAdd(SumSquaredCounts(p, y), c * c, n * n);
    }
  }

  /** Shares of the same whole add as their counts do. */
  lemma SharesAdd(a: nat, b: nat, m: nat)
    requires m > 0
    ensures a as real / m as real + b as real / m as real == (a + b) as real / m as real
  {
  }

  lemma SquareOfRatio(c: nat, n: nat)
    requires n > 0
    ensures (c as real / n as real) * (c as real / n as real) == (c * c) as real / (n * n) as real
  {
    var r := c as real / n as real;
    assert r * n as real == c as real;
    assert (r * r) * (n * n) as real == (r * n as real) * (r * n as real);
  }

  /** For `0 < q <= m`, the ratio `q / m` lies in (0, 1] and is 1 exactly when `q == m`. */
  lemma RatioBounds(q: nat, m: nat)
    requires 0 < q <= m
    ensures 0.0 < q as real / m as real <= 1.0
    ensures q as real / m as real == 1.0 <==> q == m
  {
    var r := q as real / m as real;
    assert r * m as real == q as real;
  }

  /** A non-empty label list holds a single label exactly when `Counter(y)` has one key. */
  lemma {:induction false} AllSameIffOneLabel(y: seq<int>)
    requires |y| > 0
    ensures AllSame(y) <==> |Distinct(y)| == 1
  {
    var d := Distinct(y);
    assert y[0] in d;
    if |d| >= 2 {
      assert d[0] != d[1];
      var i :| 0 <= i < |y| && y[i] == d[0];
      var j :| 0 <= j < |y| && y[j] == d[1];
      assert y[i] != y[j];
    }
    if |d| == 1 {
      forall i, j | 0 <= i < |y| && 0 <= j < |y| ensures y[i] == y[j] {
        assert y[i] in d && y[j] in d;
      }
    }
  }

  /** `gini` of a non-empty label list lies in [0, 1), and it is 0 exactly when
      all labels are equal (custom_rf.py lines 5-8). */
  lemma GiniBounds(y: seq<int>)
    requires |y| > 0
    ensures 0.0 <= Gini(y) < 1.0
    ensures Gini(y) == 0.0 <==> AllSame(y)
  {
    var d := Distinct(y);
    var n := |y|;
    CountsSumToLength(y);
    DistinctCountsPositive(y);
    SquaresBelowSquaredSum(d, y);
    SquaredSharesAsFraction(d, y, n);
    RatioBounds(SumSquaredCounts(d, y), n * n);
    AllSameIffOneLabel(y);
    if |d| == 1 {
      assert d[..0] == [];
      assert SumCounts(d, y) == Count(y, d[0]);
      assert SumSquaredCounts(d, y) == Count(y, d[0]) * Count(y, d[0]);
    }
  }

  /** The index of the first label, scanning `y` from position `i`, whose count
      beats the best one seen so far; ties keep the earlier label. */
  function MostCommonFrom(y: seq<int>, i: nat, best: nat): (k: nat)
    requires best < i <= |y|
    requires forall j :: 0 <= j < i ==> Count(y, y[j]) <= Count(y, y[best])
    requires forall j :: 0 <= j < best ==> Count(y, y[j]) < Count(y, y[best])
    ensures k < |y|
    ensures forall j :: 0 <= j < |y| ==> Count(y, y[j]) <= Count(y, y[k])
    ensures forall j :: 0 <= j < k ==> Count(y, y[j]) < Count(y, y[k])
    decreases |y| - i
  {
    if i == |y| then best
    else if Count(y, y[i]) > Count(y, y[best]) then MostCommonFrom(y, i + 1, i)
    else MostCommonFrom(y, i + 1, best)
  }

  /** `Counter(y).most_common(1)[0][0]`: a label of maximal count, and among
      labels of equal count the one that occurs first (`most_common(1)` is
      `max` over the counter's insertion-ordered items). */
  function MostCommon(y: seq<int>): (r: int)
    requires |y| > 0
    ensures r in y
    ensures forall j :: 0 <= j < |y| ==> Count(y, y[j]) <= Count(y, r)
    ensures forall j :: 0 <= j < |y| && Count(y, y[j]) == Count(y, r) ==> r in y[..j + 1]
  {
    var k := MostCommonFrom(y, 1, 0);
    assert forall j :: 0 <= j < |y| && Count(y, y[j]) == Count(y, y[k]) ==> y[..j + 1][k] == y[k];
    y[k]
  }

  /** A list of one repeated label has that label as its majority. */
  lemma MostCommonOfUniform(y: seq<int>, c: int)
    requires |y| > 0
    requires forall i :: 0 <= i < |y| ==> y[i] == c
    ensures MostCommon(y) == c
  {
  }
}
