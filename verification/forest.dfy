/** The `RandomForest` class of backend/custom_rf.py: bootstrap-trained trees
    (`fit`), majority vote (`predict`) and vote shares of the classes 0 and 1
    (`predict_proba`). The bootstrap indices and the per-node feature draws,
    which the source takes from `np.random`, are inputs. */
module RandomForest {
  import opened Base
  import opened Impurity
  import opened Partition
  import opened DecisionTree

  /** A forest: its settings and the trees `fit` stored (`self.trees`). */
  datatype Forest = Forest(nTrees: int, maxDepth: int, minSamples: int, trees: seq<Tree>)

  /** `RandomForest(n_trees, max_depth, min_samples)`: no trees yet. */
  function NewForest(nTrees: int, maxDepth: int, minSamples: int): (f: Forest)
    ensures f.trees == []
    ensures f.nTrees == nTrees && f.maxDepth == maxDepth && f.minSamples == minSamples
  {
    Forest(nTrees, maxDepth, minSamples, [])
  }

  /** `RandomForest()` with the defaults of custom_rf.py line 102. */
  function DefaultForest(): (f: Forest)
    ensures f == Forest(100, 10, 5, [])
  {
    NewForest(100, 10, 5)
  }

  /** Counting up from `r`, the largest `s` with `s * s <= n`. */
  function SqrtFrom(n: nat, r: nat): (s: nat)
    requires r * r <= n
    ensures r <= s
    ensures s * s <= n < (s + 1) * (s + 1)
    decreases n - r
  {
    if (r + 1) * (r + 1) > n then r
    else
      assert r + 1 <= (r + 1) * (r + 1);
      SqrtFrom(n, r + 1)
  }

  /** `int(np.sqrt(n))` for a feature count `n`: the integer square root. */
  function ISqrt(n: nat): (s: nat)
    ensures s * s <= n < (s + 1) * (s + 1)
  {
    SqrtFrom(n, 0)
  }

  /** The integer square root never exceeds its argument. */
  lemma ISqrtAtMost(n: nat)
    ensures ISqrt(n) <= n
  {
    var s := ISqrt(n);
    if s >= 1 {
      assert s * s >= s * 1;
    }
  }

  /** `range(self.n_trees)`: how many trees `fit` builds. */
  function TreeCount(nTrees: int): (k: nat)
    ensures nTrees >= 0 ==> k == nTrees
    ensures nTrees < 0 ==> k == 0
  {
    if nTrees < 0 then 0 else nTrees
  }

  /** The `build_tree` settings `fit` passes: the forest's depth and sample
      limits and `int(np.sqrt(w))` features per node. */
  function TreeParams(f: Forest, w: nat): (p: Params)
    ensures p.maxDepth == f.maxDepth && p.minSamples == f.minSamples
    ensures p.numFeatures * p.numFeatures <= w < (p.numFeatures + 1) * (p.numFeatures + 1)
  {
    Params(f.maxDepth, f.minSamples, ISqrt(w))
  }

  /** `np.random.choice(n, n, replace=True)`: `n` indices below `n`. */
  predicate ValidBootstrap(idx: seq<nat>, n: nat)
  {
    |idx| == n && forall k :: 0 <= k < |idx| ==> idx[k] < n
  }

  /** The random outcomes one call of `fit` consumes: a bootstrap sample and a
      feature draw for every tree. */
  ghost predicate ValidRandomness(f: Forest, n: nat, w: nat,
                                  samples: seq<seq<nat>>, draws: seq<seq<bool> -> seq<nat>>)
  {
    && |samples| == TreeCount(f.nTrees) && |draws| == TreeCount(f.nTrees)
    && (forall i :: 0 <= i < |samples| ==> ValidBootstrap(samples[i], n))
    && (forall i :: 0 <= i < |draws| ==> ValidDraws(draws[i], w, FeatureCount(TreeParams(f, w), w)))
  }

  /** Tree `i` of `fit` (custom_rf.py lines 111-120): `build_tree` on the
      bootstrap sample `X[indices], y[indices]`, scored with `gini`. */
  function FitTree(f: Forest, X: Matrix, y: seq<int>, w: nat, idx: seq<nat>,
                   draw: seq<bool> -> seq<nat>): (t: Tree)
    requires Rectangular(X, w) && |X| == |y|
    requires ValidBootstrap(idx, |X|)
    requires ValidDraws(draw, w, FeatureCount(TreeParams(f, w), w))
    ensures Fits(t, w)
    ensures Height(t) <= if f.maxDepth <= 0 then 0 else f.maxDepth
    ensures |y| > 0 ==> forall v :: v in LeafValues(t) ==> v in y
  {
    var Xs := Gather(X, idx);
    var ys := Gather(y, idx);
    GatherRectangular(X, w, idx);
    var t := BuildTree(Xs, ys, w, 0, TreeParams(f, w), draw, [], Gini);
    assert |y| > 0 ==> forall v :: v in LeafValues(t) ==> v in y by {
      if |y| > 0 {
        forall v | v in LeafValues(t) ensures v in y {
          if |ys| > 0 {
            var k :| 0 <= k < |ys| && ys[k] == v;
            assert y[idx[k]] == v;
          }
        }
      }
    }
    t
  }

  /** `fit(X, y)` (custom_rf.py lines 108-120): the stored trees are replaced
      by `n_trees` fresh ones, tree `i` built from bootstrap sample `i` with
      feature draws `i`; the settings are unchanged. */
  function Fit(f: Forest, X: Matrix, y: seq<int>, w: nat,
               samples: seq<seq<nat>>, draws: seq<seq<bool> -> seq<nat>>): (g: Forest)
    requires Rectangular(X, w) && |X| == |y|
    requires ValidRandomness(f, |X|, w, samples, draws)
    ensures g.nTrees == f.nTrees && g.maxDepth == f.maxDepth && g.minSamples == f.minSamples
    ensures |g.trees| == TreeCount(f.nTrees)
    ensures forall i :: 0 <= i < |g.trees| ==>
              g.trees[i] == FitTree(f, X, y, w, samples[i], draws[i])
  {
    f.(trees := seq(|samples|, i requires 0 <= i < |samples| =>
                      FitTree(f, X, y, w, samples[i], draws[i])))
  }

  /** The row of `tree_preds` for one sample: every tree's prediction. */
  function Votes(x: seq<real>, trees: seq<Tree>): (v: seq<int>)
    ensures |v| == |trees|
    ensures forall i :: 0 <= i < |trees| ==> v[i] == DecisionTree.Predict(x, trees[i])
  {
    seq(|trees|, i requires 0 <= i < |trees| => DecisionTree.Predict(x, trees[i]))
  }

  /** `Counter(row).most_common(1)[0][0]` for one sample; with no trees the
      row is empty and `most_common(1)[0]` raises `IndexError`. */
  function PredictOne(x: seq<real>, trees: seq<Tree>): (r: Option<int>)
    ensures r.None? <==> trees == []
  {
    if trees == [] then None else Some(MostCommon(Votes(x, trees)))
  }

  /** `predict(X)` (custom_rf.py lines 122-126): the majority vote per sample,
      first-seen tree vote winning ties; `None` when a sample meets a forest
      without trees. */
  function Predict(f: Forest, X: Matrix): (r: Option<seq<int>>)
    ensures r.None? <==> |X| > 0 && f.trees == []
    ensures r.Some? ==> |r.value| == |X|
    ensures r.Some? ==> forall i :: 0 <= i < |X| ==> Some(r.value[i]) == PredictOne(X[i], f.trees)
  {
    if |X| > 0 && f.trees == [] then None
    else Some(seq(|X|, i requires 0 <= i < |X| => MostCommon(Votes(X[i], f.trees))))
  }

  /** The forest's vote is a tree's vote that no other vote outnumbers. */
  lemma PredictIsMajority(x: seq<real>, trees: seq<Tree>)
    requires trees != []
    ensures var v := Votes(x, trees);
            var r := PredictOne(x, trees).value;
            && (exists i :: 0 <= i < |trees| && DecisionTree.Predict(x, trees[i]) == r)
            && forall i :: 0 <= i < |trees| ==> Count(v, v[i]) <= Count(v, r)
  {
    var v := Votes(x, trees);
    var r := MostCommon(v);
    var i :| 0 <= i < |v| && v[i] == r;
    assert DecisionTree.Predict(x, trees[i]) == r;
  }

  /** When every tree votes `c`, the forest predicts `c`. */
  lemma UnanimousVote(x: seq<real>, trees: seq<Tree>, c: int)
    requires trees != []
    requires forall i :: 0 <= i < |trees| ==> DecisionTree.Predict(x, trees[i]) == c
    ensures PredictOne(x, trees) == Some(c)
  {
    MostCommonOfUniform(Votes(x, trees), c);
  }

  /** A fitted forest predicts, for a sample at least as wide as the
      training rows, a label that occurs in the training labels. */
  lemma FittedPredictionInLabels(f: Forest, X: Matrix, y: seq<int>, w: nat,
                                 samples: seq<seq<nat>>, draws: seq<seq<bool> -> seq<nat>>,
                                 x: seq<real>)
    requires Rectangular(X, w) && |X| == |y| && |y| > 0
    requires ValidRandomness(f, |X|, w, samples, draws)
    requires |x| >= w
    requires f.nTrees > 0
    ensures var g := Fit(f, X, y, w, samples, draws);
            PredictOne(x, g.trees).Some? && PredictOne(x, g.trees).value in y
  {
    var g := Fit(f, X, y, w, samples, draws);
    var v := Votes(x, g.trees);
    forall i | 0 <= i < |g.trees| ensures v[i] in y {
      var t := g.trees[i];
      FitsWider(t, w, |x|);
      PredictReachesLeaf(x, t);
    }
    var k :| 0 <= k < |v| && v[k] == MostCommon(v);
  }

  /** The two class shares of one sample: `counts.get(c, 0) / len(row)` for
      `c` in 0 and 1; with no trees `len(row)` is 0 and the division raises
      `ZeroDivisionError`. */
  function ProbaOne(x: seq<real>, trees: seq<Tree>): (r: Option<(real, real)>)
    ensures r.None? <==> trees == []
    ensures r.Some? ==> 0.0 <= r.value.0 <= 1.0 && 0.0 <= r.value.1 <= 1.0
    ensures r.Some? ==> r.value.0 + r.value.1 <= 1.0
  {
    if trees == [] then None
    else
      var v := Votes(x, trees);
      var n := |v| as real;
      ShareBounds(v);
      Some((Count(v, 0) as real / n, Count(v, 1) as real / n))
  }

  /** `predict_proba(X)` (custom_rf.py lines 128-146): per sample the vote
      shares of classes 0 and 1. */
  function PredictProba(f: Forest, X: Matrix): (r: Option<seq<(real, real)>>)
    ensures r.None? <==> |X| > 0 && f.trees == []
    ensures r.Some? ==> |r.value| == |X|
    ensures r.Some? ==> forall i :: 0 <= i < |X| ==> Some(r.value[i]) == ProbaOne(X[i], f.trees)
  {
    if |X| > 0 && f.trees == [] then None
    else Some(seq(|X|, i requires 0 <= i < |X| => ProbaOne(X[i], f.trees).value))
  }

  /** The 0 and 1 votes together never outnumber the votes. */
  lemma ShareBounds(v: seq<int>)
    requires |v| > 0
    ensures Count(v, 0) + Count(v, 1) <= |v|
    ensures 0.0 <= Count(v, 0) as real / |v| as real <= 1.0
    ensures 0.0 <= Count(v, 1) as real / |v| as real <= 1.0
    ensures Count(v, 0) as real / |v| as real + Count(v, 1) as real / |v| as real <= 1.0
  {
    BinaryVotes(v);
    TwoShares(Count(v, 0), Count(v, 1), |v|);
  }

  /** Two counts that fit in `m` give shares of `m` in [0, 1] with sum at most 1. */
  lemma TwoShares(a: nat, b: nat, m: nat)
    requires m > 0 && a + b <= m
    ensures 0.0 <= a as real / m as real <= 1.0
    ensures 0.0 <= b as real / m as real <= 1.0
    ensures a as real / m as real + b as real / m as real <= 1.0
  {
    ShareInUnit(a, m);
    ShareInUnit(b, m);
    ShareInUnit(a + b, m);
    SharesAdd(a, b, m);
  }

  /** A count that fits in `m` is a share of `m` in [0, 1]. */
  lemma ShareInUnit(a: nat, m: nat)
    requires m > 0 && a <= m
    ensures 0.0 <= a as real / m as real <= 1.0
  {
    var n := m as real;
    assert n / n == 1.0 && 0.0 / n == 0.0;
    DivMonotone(0, a, m);
    DivMonotone(a, m, m);
  }

  /** The 0 and 1 votes account for every vote exactly when no tree voted
      another label. */
  lemma {:induction false} BinaryVotes(v: seq<int>)
    ensures Count(v, 0) + Count(v, 1) <= |v|
    ensures Count(v, 0) + Count(v, 1) == |v| <==> forall i :: 0 <= i < |v| ==> v[i] == 0 || v[i] == 1
  {
    if v != [] {
      var p := v[..|v| - 1];
      var x := v[|v| - 1];
      assert v == p + [x];
      assert multiset(v) == multiset(p) + multiset{x};
      BinaryVotes(p);
      if forall i :: 0 <= i < |p| ==> p[i] == 0 || p[i] == 1 {
        if x == 0 || x == 1 {
          assert forall i :: 0 <= i < |v| ==> v[i] == 0 || v[i] == 1 by {
            forall i | 0 <= i < |v| ensures v[i] == 0 || v[i] == 1 {
              if i < |p| { assert v[i] == p[i]; }
            }
          }
        }
      } else {
        var i :| 0 <= i < |p| && p[i] != 0 && p[i] != 1;
        assert v[i] == p[i];
      }
    }
  }

  /** The two shares sum to 1 exactly when every tree voted 0 or 1; otherwise
      the other labels' share is missing from both columns. */
  lemma ProbaSumsToOne(x: seq<real>, trees: seq<Tree>)
    requires trees != []
    ensures var r := ProbaOne(x, trees).value;
            r.0 + r.1 == 1.0 <==>
              forall i :: 0 <= i < |trees| ==> DecisionTree.Predict(x, trees[i]) in {0, 1}
  {
    var v := Votes(x, trees);
    var n := |v| as real;
    BinaryVotes(v);
    SharesAdd(Count(v, 0), Count(v, 1), |v|);
    RatioOne(Count(v, 0) + Count(v, 1), |v|);
  }

  lemma RatioOne(q: nat, m: nat)
    requires m > 0
    ensures q as real / m as real == 1.0 <==> q == m
  {
    var r := q as real / m as real;
    assert r * m as real == q as real;
  }

  /** On 0/1 votes `predict` and `predict_proba` agree: the predicted class
      has the larger share, and on equal shares it is the first tree's vote. */
  lemma PredictAgreesWithProba(x: seq<real>, trees: seq<Tree>)
    requires trees != []
    requires forall i :: 0 <= i < |trees| ==> DecisionTree.Predict(x, trees[i]) in {0, 1}
    ensures var c := PredictOne(x, trees).value;
            var r := ProbaOne(x, trees).value;
            && (c == 0 || c == 1)
            && (c == 0 ==> r.0 >= r.1)
            && (c == 1 ==> r.1 >= r.0)
            && (r.0 == r.1 ==> c == DecisionTree.Predict(x, trees[0]))
  {
    var v := Votes(x, trees);
    BinaryMajority(v);
    DivMonotone(Count(v, 0), Count(v, 1), |v|);
    DivMonotone(Count(v, 1), Count(v, 0), |v|);
  }

  /** On a non-empty list of 0/1 votes the most common vote has at least the
      other's count, and on equal counts it is the first vote. */
  lemma BinaryMajority(v: seq<int>)
    requires v != [] && forall i :: 0 <= i < |v| ==> v[i] in {0, 1}
    ensures MostCommon(v) == 0 || MostCommon(v) == 1
    ensures MostCommon(v) == 0 ==> Count(v, 0) >= Count(v, 1)
    ensures MostCommon(v) == 1 ==> Count(v, 1) >= Count(v, 0)
    ensures Count(v, 0) == Count(v, 1) ==> MostCommon(v) == v[0]
  {
    var c := MostCommon(v);
    var i :| 0 <= i < |v| && v[i] == c;
    assert v[i] in {0, 1};
    if 0 in v {
      var a :| 0 <= a < |v| && v[a] == 0;
      assert Count(v, 0) <= Count(v, c);
    }
    if 1 in v {
      var b :| 0 <= b < |v| && v[b] == 1;
      assert Count(v, 1) <= Count(v, c);
    }
    if Count(v, 0) == Count(v, 1) {
      assert v[0] in {0, 1};
      assert Count(v, v[0]) == Count(v, c);
      assert c in v[..1];
    }
  }

  /** Dividing by the same positive count keeps the order of the counts. */
  lemma DivMonotone(a: nat, b: nat, m: nat)
    requires m > 0
    ensures a <= b <==> a as real / m as real <= b as real / m as real
    ensures a == b <==> a as real / m as real == b as real / m as real
  {
    var ra := a as real / m as real;
    var rb := b as real / m as real;
    assert ra * m as real == a as real;
    assert rb * m as real == b as real;
  }
}
