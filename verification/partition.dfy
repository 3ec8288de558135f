/** Threshold partitioning of a feature matrix (custom_rf.py `split_dataset`)
    and the candidate thresholds of a column (`np.unique(X[:, f])`). Rows are
    feature vectors of `real`s. */
module Partition {

  type Matrix = seq<seq<real>>

  /** Every row has exactly `w` features: a numpy array of shape `(len(X), w)`. */
  predicate Rectangular(X: Matrix, w: nat)
  {
    forall i :: 0 <= i < |X| ==> |X[i]| == w
  }

  predicate StrictlyIncreasing(s: seq<int>)
  {
    forall i, j :: 0 <= i < j < |s| ==> s[i] < s[j]
  }

  /** `[i for i in range(n) if X[i][f] <= t]` when `below`, else the `> t` indices:
      the rows up to `n` on one side of the threshold, in row order. */
  function SideIndices(X: Matrix, f: nat, t: real, n: nat, below: bool): (idx: seq<int>)
    requires n <= |X|
    requires forall i :: 0 <= i < |X| ==> f < |X[i]|
    ensures StrictlyIncreasing(idx)
    ensures forall k :: 0 <= k < |idx| ==> 0 <= idx[k] < n && (X[idx[k]][f] <= t <==> below)
    ensures forall i :: 0 <= i < n ==> (i in idx <==> (X[i][f] <= t <==> below))
  {
    if n == 0 then []
    else
      var prev := SideIndices(X, f, t, n - 1, below);
      if (X[n - 1][f] <= t) == below then prev + [n - 1] else prev
  }

  /** `s[idx]` with numpy fancy indexing: the elements at the given positions. */
  function Gather<T>(s: seq<T>, idx: seq<int>): (r: seq<T>)
    requires forall k :: 0 <= k < |idx| ==> 0 <= idx[k] < |s|
    ensures |r| == |idx|
    ensures forall k :: 0 <= k < |idx| ==> r[k] == s[idx[k]]
  {
    seq(|idx|, k requires 0 <= k < |idx| => s[idx[k]])
  }

  /** The two halves `split_dataset` returns. */
  datatype Halves = Halves(leftRows: Matrix, leftLabels: seq<int>, rightRows: Matrix, rightLabels: seq<int>)

  /** `split_dataset(X, y, f, t)` (custom_rf.py lines 11-14): the rows with
      `X[i][f] <= t` on the left, the rows with `X[i][f] > t` on the right,
      each with its labels. */
  function Split(X: Matrix, y: seq<int>, f: nat, t: real): (h: Halves)
    requires |X| == |y|
    requires forall i :: 0 <= i < |X| ==> f < |X[i]|
    ensures |h.leftRows| == |h.leftLabels| && |h.rightRows| == |h.rightLabels|
    ensures |h.leftLabels| + |h.rightLabels| == |y|
    ensures forall k :: 0 <= k < |h.leftLabels| ==> h.leftLabels[k] in y
    ensures forall k :: 0 <= k < |h.rightLabels| ==> h.rightLabels[k] in y
    ensures forall k :: 0 <= k < |h.leftRows| ==> h.leftRows[k] in X
    ensures forall k :: 0 <= k < |h.rightRows| ==> h.rightRows[k] in X
  {
    var left := SideIndices(X, f, t, |X|, true);
    var right := SideIndices(X, f, t, |X|, false);
    SidesPartition(X, f, t, |X|);
    Halves(Gather(X, left), Gather(y, left), Gather(X, right), Gather(y, right))
  }

  /** Every row index up to `n` lands on exactly one side: the side sizes add up to `n`. */
  lemma {:induction false} SidesPartition(X: Matrix, f: nat, t: real, n: nat)
    requires n <= |X|
    requires forall i :: 0 <= i < |X| ==> f < |X[i]|
    ensures |SideIndices(X, f, t, n, true)| + |SideIndices(X, f, t, n, false)| == n
  {
    if n > 0 {
      SidesPartition(X, f, t, n - 1);
    }
  }

  /** The split partitions the rows (custom_rf.py lines 11-14): each left row
      is `X[i]` for an `i` with `X[i][f] <= t`, each right row one with
      `X[i][f] > t`, row order is kept on both sides (the source positions
      increase), and every row index lands on exactly one side. */
  lemma SplitSpec(X: Matrix, y: seq<int>, f: nat, t: real)
    requires |X| == |y|
    requires forall i :: 0 <= i < |X| ==> f < |X[i]|
    ensures var left := SideIndices(X, f, t, |X|, true);
            var right := SideIndices(X, f, t, |X|, false);
            var h := Split(X, y, f, t);
            && StrictlyIncreasing(left) && StrictlyIncreasing(right)
            && (forall k :: 0 <= k < |left| ==> h.leftRows[k] == X[left[k]] && h.leftLabels[k] == y[left[k]] && X[left[k]][f] <= t)
            && (forall k :: 0 <= k < |right| ==> h.rightRows[k] == X[right[k]] && h.rightLabels[k] == y[right[k]] && X[right[k]][f] > t)
            && (forall i :: 0 <= i < |X| ==> (i in left <==> i !in right))
  {
  }

  /** Gathering keeps the row width. */
  lemma GatherRectangular(X: Matrix, w: nat, idx: seq<int>)
    requires Rectangular(X, w)
    requires forall k :: 0 <= k < |idx| ==> 0 <= idx[k] < |X|
    ensures Rectangular(Gather(X, idx), w)
  {
  }

  /** Column `f` of `X`: `X[:, f]`. */
  function Column(X: Matrix, f: nat): (c: seq<real>)
    requires forall i :: 0 <= i < |X| ==> f < |X[i]|
    ensures |c| == |X|
    ensures forall i :: 0 <= i < |X| ==> c[i] == X[i][f]
  {
    seq(|X|, i requires 0 <= i < |X| && f < |X[i]| => X[i][f])
  }

  predicate Ascending(s: seq<real>)
  {
    forall i, j :: 0 <= i < j < |s| ==> s[i] < s[j]
  }

  /** Inserts `v` into a strictly ascending list unless it is already there. */
  function InsertUnique(s: seq<real>, v: real): (r: seq<real>)
    requires Ascending(s)
    ensures Ascending(r)
    ensures forall x :: x in r <==> x in s || x == v
  {
    if s == [] then [v]
    else if v < s[0] then [v] + s
    else if v == s[0] then s
    else
      var t := InsertUnique(s[1..], v);
      assert forall x :: x in s <==> x == s[0] || x in s[1..] by {
        assert s == [s[0]] + s[1..];
      }
      forall i | 0 <= i < |t| ensures s[0] < t[i] {
        assert t[i] in t;
        if t[i] != v {
          var k :| 0 <= k < |s[1..]| && s[1..][k] == t[i];
          assert s[k + 1] == t[i];
        }
      }
      [s[0]] + t
  }

  /** `np.unique(c)`: the distinct values of `c` in ascending order. */
  function SortedUnique(c: seq<real>): (r: seq<real>)
    ensures Ascending(r)
    ensures forall x :: x in r <==> x in c
  {
    if c == [] then []
    else
      var p := c[..|c| - 1];
      var x := c[|c| - 1];
      assert c == p + [x];
      InsertUnique(SortedUnique(p), x)
  }
}
