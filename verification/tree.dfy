/** The decision tree of backend/custom_rf.py: best-split search, recursive
    tree building with its stopping rules, and prediction. The learner's random
    feature subsets (`np.random.choice`) are an input: `draw(path)` is the
    feature list drawn at the node reached by `path` (false = left). */
module DecisionTree {
  import opened Base
  import opened Impurity
  import opened Partition

  /** `TreeNode`: a leaf holds a class label (`value`), an internal node a
      feature index, a threshold and two children. */
  datatype Tree =
    | Leaf(value: int)
    | Node(feature: nat, threshold: real, left: Tree, right: Tree)

  /** A candidate split: a feature index and a threshold. */
  datatype Choice = Choice(feature: nat, threshold: real)

  /** The learner's settings: `max_depth`, `min_samples` and `num_features`
      (0 stands for `None`; both make `num_features or n_features` pick all). */
  datatype Params = Params(maxDepth: int, minSamples: int, numFeatures: nat)

  predicate ValidFeatures(features: seq<nat>, w: nat)
  {
    forall k :: 0 <= k < |features| ==> features[k] < w
  }

  /** The threshold of `c` is a value of its feature's column in `X`. */
  predicate FromColumn(X: Matrix, c: Choice)
  {
    exists i :: 0 <= i < |X| && c.feature < |X[i]| && c.threshold == X[i][c.feature]
  }

  /** The candidates of one feature: one per distinct column value, in
      ascending order (custom_rf.py lines 23-24). */
  function FeatureCandidates(X: Matrix, w: nat, f: nat): (cs: seq<Choice>)
    requires Rectangular(X, w) && f < w
    ensures forall k :: 0 <= k < |cs| ==> cs[k].feature == f
  {
    var ts := SortedUnique(Column(X, f));
    seq(|ts|, k requires 0 <= k < |ts| => Choice(f, ts[k]))
  }

  /** The thresholds of one feature ascend strictly, and every value of the
      feature's column is tried, and only those values. */
  lemma FeatureCandidatesCover(X: Matrix, w: nat, f: nat)
    requires Rectangular(X, w) && f < w
    ensures var cs := FeatureCandidates(X, w, f);
            && (forall a, b :: 0 <= a < b < |cs| ==> cs[a].threshold < cs[b].threshold)
            && (forall k :: 0 <= k < |cs| ==> FromColumn(X, cs[k]))
            && (forall i :: 0 <= i < |X| ==> Choice(f, X[i][f]) in cs)
  {
    var c := Column(X, f);
    var ts := SortedUnique(c);
    var cs := FeatureCandidates(X, w, f);
    assert |cs| == |ts| && forall k :: 0 <= k < |cs| ==> cs[k] == Choice(f, ts[k]);
    forall k | 0 <= k < |cs| ensures FromColumn(X, cs[k]) {
      assert ts[k] in ts;
      var i :| 0 <= i < |c| && c[i] == ts[k];
    }
    forall i | 0 <= i < |X| ensures Choice(f, X[i][f]) in cs {
      assert c[i] in ts;
      var k :| 0 <= k < |ts| && ts[k] == c[i];
      assert cs[k] == Choice(f, X[i][f]);
    }
  }

  /** The candidates `best_split` visits, in its order: features as given, and
      for each the distinct column values in ascending order. */
  function Candidates(X: Matrix, w: nat, features: seq<nat>): (cs: seq<Choice>)
    requires Rectangular(X, w) && ValidFeatures(features, w)
    ensures forall k :: 0 <= k < |cs| ==> cs[k].feature < w
  {
    if features == [] then []
    else FeatureCandidates(X, w, features[0]) + Candidates(X, w, features[1..])
  }

  /** Every value of every listed feature's column is a candidate, and every
      candidate tests a listed feature at a value of that feature's column. */
  lemma CandidatesCover(X: Matrix, w: nat, features: seq<nat>)
    requires Rectangular(X, w) && ValidFeatures(features, w)
    ensures var cs := Candidates(X, w, features);
            && (forall k :: 0 <= k < |cs| ==> FromColumn(X, cs[k]) && cs[k].feature in features)
            && (forall j, i :: 0 <= j < |features| && 0 <= i < |X| ==> Choice(features[j], X[i][features[j]]) in cs)
  {
    CandidatesFromColumns(X, w, features);
    CandidatesTryAll(X, w, features);
  }

  lemma {:induction false} CandidatesFromColumns(X: Matrix, w: nat, features: seq<nat>)
    requires Rectangular(X, w) && ValidFeatures(features, w)
    ensures forall k :: 0 <= k < |Candidates(X, w, features)| ==>
              FromColumn(X, Candidates(X, w, features)[k]) && Candidates(X, w, features)[k].feature in features
  {
    if features != [] {
      var head := FeatureCandidates(X, w, features[0]);
      var tail := Candidates(X, w, features[1..]);
      var cs := Candidates(X, w, features);
      assert cs == head + tail;
      FeatureCandidatesCover(X, w, features[0]);
      CandidatesFromColumns(X, w, features[1..]);
      forall k | 0 <= k < |cs| ensures FromColumn(X, cs[k]) && cs[k].feature in features {
        if k < |head| {
          assert cs[k] == head[k];
          assert cs[k].feature == features[0];
        } else {
          var t := tail[k - |head|];
          assert cs[k] == t && FromColumn(X, t) && t.feature in features[1..];
          var m :| 0 <= m < |features[1..]| && features[1..][m] == t.feature;
          assert features[m + 1] == t.feature;
        }
      }
    }
  }

  lemma {:induction false} CandidatesTryAll(X: Matrix, w: nat, features: seq<nat>)
    requires Rectangular(X, w) && ValidFeatures(features, w)
    ensures forall j, i :: 0 <= j < |features| && 0 <= i < |X| ==>
              Choice(features[j], X[i][features[j]]) in Candidates(X, w, features)
  {
    if features != [] {
      var head := FeatureCandidates(X, w, features[0]);
      var tail := Candidates(X, w, features[1..]);
      var cs := Candidates(X, w, features);
      assert cs == head + tail;
      FeatureCandidatesCover(X, w, features[0]);
      CandidatesTryAll(X, w, features[1..]);
      forall j, i | 0 <= j < |features| && 0 <= i < |X| ensures Choice(features[j], X[i][features[j]]) in cs {
        if j == 0 {
          assert Choice(features[0], X[i][features[0]]) in head;
        } else {
          assert features[j] == features[1..][j - 1];
          assert Choice(features[j], X[i][features[j]]) in tail;
        }
      }
    }
  }

  /** What `best_split` makes of one candidate (custom_rf.py lines 25-33):
      `None` when a half is empty (the candidate is skipped), otherwise the
      impurity decrease `imp(y) - (|L|/|y| imp(L) + |R|/|y| imp(R))`. The
      learner always scores with `gini` (`Impurity.Gini`); the tree functions
      take the impurity as a parameter so that their proofs do not depend on
      how it is computed. */
  function Score(X: Matrix, y: seq<int>, w: nat, c: Choice, imp: seq<int> -> real): (s: Option<real>)
    requires Rectangular(X, w) && |X| == |y| && c.feature < w
  {
    var h := Split(X, y, c.feature, c.threshold);
    if |h.leftLabels| == 0 || |h.rightLabels| == 0 then None
    else
      var n := |y| as real;
      Some(imp(y) - ((|h.leftLabels| as real / n) * imp(h.leftLabels)
                      + (|h.rightLabels| as real / n) * imp(h.rightLabels)))
  }

  /** The scores of the candidates, in scan order. */
  function Scores(X: Matrix, y: seq<int>, w: nat, cs: seq<Choice>, imp: seq<int> -> real): (ss: seq<Option<real>>)
    requires Rectangular(X, w) && |X| == |y|
    requires forall k :: 0 <= k < |cs| ==> cs[k].feature < w
    ensures |ss| == |cs|
    ensures forall k :: 0 <= k < |cs| ==> ss[k] == Score(X, y, w, cs[k], imp)
  {
    seq(|cs|, k requires 0 <= k < |cs| => Score(X, y, w, cs[k], imp))
  }

  /** A score that beats the initial `best_gain` of 0. */
  predicate Improving(s: Option<real>)
  {
    s.Some? && s.value > 0.0
  }

  /** The loop of `best_split` from candidate `i` on, holding the best position
      so far and its gain (`best_gain` starts at 0 and is replaced only by a
      strictly larger gain). The result is the position of the first candidate
      of maximal positive gain, or `None` when no candidate improves. */
  function BestFrom(ss: seq<Option<real>>, i: nat, best: Option<nat>, bestGain: real): (r: Option<nat>)
    requires i <= |ss|
    requires best.None? ==> bestGain == 0.0
    requires best.Some? ==> best.value < i && ss[best.value] == Some(bestGain) && bestGain > 0.0
    requires forall j :: 0 <= j < i && ss[j].Some? ==> ss[j].value <= bestGain
    requires best.Some? ==> forall j :: 0 <= j < best.value && ss[j].Some? ==> ss[j].value < bestGain
    ensures r.None? <==> forall j :: 0 <= j < |ss| ==> !Improving(ss[j])
    ensures r.Some? ==> r.value < |ss| && Improving(ss[r.value])
    ensures r.Some? ==> forall j :: 0 <= j < |ss| && ss[j].Some? ==> ss[j].value <= ss[r.value].value
    ensures r.Some? ==> forall j :: 0 <= j < r.value && ss[j].Some? ==> ss[j].value < ss[r.value].value
    decreases |ss| - i
  {
    if i == |ss| then best
    else if ss[i].Some? && ss[i].value > bestGain then BestFrom(ss, i + 1, Some(i), ss[i].value)
    else BestFrom(ss, i + 1, best, bestGain)
  }

  /** `best_split(X, y, features)` (custom_rf.py lines 17-39). */
  function BestSplit(X: Matrix, y: seq<int>, w: nat, features: seq<nat>, imp: seq<int> -> real): (r: Option<Choice>)
    requires Rectangular(X, w) && |X| == |y| && ValidFeatures(features, w)
    ensures r.Some? ==> r.value.feature < w
  {
    var cs := Candidates(X, w, features);
    match BestFrom(Scores(X, y, w, cs, imp), 0, None, 0.0)
    case None => None
    case Some(k) => Some(cs[k])
  }

  /** No candidate of `cs` improves the impurity. */
  predicate NoneImproves(X: Matrix, y: seq<int>, w: nat, cs: seq<Choice>, imp: seq<int> -> real)
    requires Rectangular(X, w) && |X| == |y|
    requires forall k :: 0 <= k < |cs| ==> cs[k].feature < w
  {
    forall j :: 0 <= j < |cs| ==> !Improving(Score(X, y, w, cs[j], imp))
  }

  /** No candidate split of `y` over `features` improves the impurity. */
  predicate NoImprovingSplit(X: Matrix, y: seq<int>, w: nat, features: seq<nat>, imp: seq<int> -> real)
    requires Rectangular(X, w) && |X| == |y| && ValidFeatures(features, w)
  {
    NoneImproves(X, y, w, Candidates(X, w, features), imp)
  }

  /** Candidate `k` has a strictly positive gain, no candidate gains more,
      and every earlier candidate gains strictly less: the one `best_split`
      keeps, since it replaces its best only on a strictly larger gain. */
  predicate FirstBest(X: Matrix, y: seq<int>, w: nat, cs: seq<Choice>, imp: seq<int> -> real, k: nat)
    requires Rectangular(X, w) && |X| == |y|
    requires forall k :: 0 <= k < |cs| ==> cs[k].feature < w
  {
    && k < |cs|
    && Improving(Score(X, y, w, cs[k], imp))
    && (forall j :: 0 <= j < |cs| && Score(X, y, w, cs[j], imp).Some? ==>
          Score(X, y, w, cs[j], imp).value <= Score(X, y, w, cs[k], imp).value)
    && (forall j :: 0 <= j < k && Score(X, y, w, cs[j], imp).Some? ==>
          Score(X, y, w, cs[j], imp).value < Score(X, y, w, cs[k], imp).value)
  }

  /** `best_split` returns `(None, None)` exactly when no candidate has both
      halves non-empty and a strictly positive gain; otherwise it returns a
      candidate of maximal gain, the first such in scan order (features in the
      order given, thresholds ascending). */
  lemma BestSplitSpec(X: Matrix, y: seq<int>, w: nat, features: seq<nat>, imp: seq<int> -> real)
    requires Rectangular(X, w) && |X| == |y| && ValidFeatures(features, w)
    ensures BestSplit(X, y, w, features, imp).None? <==> NoImprovingSplit(X, y, w, features, imp)
    ensures BestSplit(X, y, w, features, imp).Some? ==>
              exists k :: 0 <= k < |Candidates(X, w, features)|
                          && FirstBest(X, y, w, Candidates(X, w, features), imp, k)
                          && Candidates(X, w, features)[k] == BestSplit(X, y, w, features, imp).value
  {
    var cs := Candidates(X, w, features);
    var b := BestFrom(Scores(X, y, w, cs, imp), 0, None, 0.0);
    var r := BestSplit(X, y, w, features, imp);
    assert r == (if b.None? then None else Some(cs[b.value]));
    BestFromScores(X, y, w, cs, imp, b);
  }

  /** The scan's result read back through `Scores`: every score is the
      candidate's own. */
  lemma BestFromScores(X: Matrix, y: seq<int>, w: nat, cs: seq<Choice>, imp: seq<int> -> real, b: Option<nat>)
    requires Rectangular(X, w) && |X| == |y|
    requires forall k :: 0 <= k < |cs| ==> cs[k].feature < w
    requires b == BestFrom(Scores(X, y, w, cs, imp), 0, None, 0.0)
    ensures b.None? <==> NoneImproves(X, y, w, cs, imp)
    ensures b.Some? ==> FirstBest(X, y, w, cs, imp, b.value)
  {
  }

  /** The split `build_tree` makes (custom_rf.py lines 67-77): the best split,
      unless there is none or one of its halves is empty. */
  function NodeSplit(X: Matrix, y: seq<int>, w: nat, features: seq<nat>, imp: seq<int> -> real): (r: Option<Choice>)
    requires Rectangular(X, w) && |X| == |y| && ValidFeatures(features, w)
    ensures r.Some? ==> r.value.feature < w
    ensures r.Some? ==> |Split(X, y, r.value.feature, r.value.threshold).leftLabels| > 0
    ensures r.Some? ==> |Split(X, y, r.value.feature, r.value.threshold).rightLabels| > 0
  {
    match BestSplit(X, y, w, features, imp)
    case None => None
    case Some(c) =>
      var h := Split(X, y, c.feature, c.threshold);
      if |h.leftLabels| == 0 || |h.rightLabels| == 0 then None else Some(c)
  }

  /** `num_features or n_features`: how many features a node draws. */
  function FeatureCount(p: Params, w: nat): nat
  {
    if p.numFeatures == 0 then w else p.numFeatures
  }

  /** `np.random.choice(w, k, replace=False)`: `k` distinct feature indices below `w`. */
  predicate ValidDraw(features: seq<nat>, w: nat, k: nat)
  {
    && |features| == k
    && ValidFeatures(features, w)
    && forall i, j :: 0 <= i < j < |features| ==> features[i] != features[j]
  }

  /** Every node's feature draw is a valid `np.random.choice` outcome. */
  ghost predicate ValidDraws(draw: seq<bool> -> seq<nat>, w: nat, k: nat)
  {
    forall path :: ValidDraw(draw(path), w, k)
  }

  /** `build_tree(X, y, depth, max_depth, min_samples, num_features)`
      (custom_rf.py lines 54-83), the node at `path` drawing the features
      `draw(path)` and splits scored with the impurity `imp`. A tree built from
      depth `d` is at most `max_depth - d` deep (lines 59, 80-81). Every leaf
      holds a label occurring in `y`, and only an empty `y` gives the default
      leaf 0 (lines 56-61, 71, 77). Every internal node tests a feature below
      the row width, and since both children are built from non-empty halves,
      a tree has at most one leaf per training row. */
  function BuildTree(X: Matrix, y: seq<int>, w: nat, depth: nat, p: Params,
                     draw: seq<bool> -> seq<nat>, path: seq<bool>, imp: seq<int> -> real): (t: Tree)
    requires Rectangular(X, w) && |X| == |y|
    requires ValidDraws(draw, w, FeatureCount(p, w))
    ensures Height(t) <= if depth >= p.maxDepth then 0 else p.maxDepth - depth
    ensures |y| == 0 ==> t == Leaf(0)
    ensures |y| > 0 ==> forall v :: v in LeafValues(t) ==> v in y
    ensures Fits(t, w)
    ensures LeafCount(t) <= if |y| == 0 then 1 else |y|
    decreases |y|, 1
  {
    if |y| == 0 then Leaf(0)
    else if AllSame(y) || |y| < p.minSamples || depth >= p.maxDepth then Leaf(MostCommon(y))
    else
      assert ValidDraw(draw(path), w, FeatureCount(p, w));
      match NodeSplit(X, y, w, draw(path), imp)
      case None => Leaf(MostCommon(y))
      case Some(c) => Grow(X, y, w, depth, p, draw, path, imp, c)
  }

  /** The internal node `build_tree` makes for the split `c` (custom_rf.py
      lines 79-83): both halves are grown one level deeper, the left one
      along `path + [false]` and the right one along `path + [true]`. */
  function Grow(X: Matrix, y: seq<int>, w: nat, depth: nat, p: Params,
                draw: seq<bool> -> seq<nat>, path: seq<bool>, imp: seq<int> -> real, c: Choice): (t: Tree)
    requires Rectangular(X, w) && |X| == |y| && c.feature < w
    requires ValidDraws(draw, w, FeatureCount(p, w))
    requires depth < p.maxDepth
    requires |Split(X, y, c.feature, c.threshold).leftLabels| > 0
    requires |Split(X, y, c.feature, c.threshold).rightLabels| > 0
    ensures t.Node? && t.feature == c.feature && t.threshold == c.threshold
    ensures Height(t) <= p.maxDepth - depth
    ensures forall v :: v in LeafValues(t) ==> v in y
    ensures Fits(t, w)
    ensures LeafCount(t) <= |y|
    decreases |y|, 0
  {
    var h := Split(X, y, c.feature, c.threshold);
    SplitRectangular(X, y, w, c);
    var l := BuildTree(h.leftRows, h.leftLabels, w, depth + 1, p, draw, path + [false], imp);
    var r := BuildTree(h.rightRows, h.rightLabels, w, depth + 1, p, draw, path + [true], imp);
    LabelsWithin(LeafValues(l), h.leftLabels, y);
    LabelsWithin(LeafValues(r), h.rightLabels, y);
    NodeHeight(c.feature, c.threshold, l, r, p.maxDepth - depth);
    Node(c.feature, c.threshold, l, r)
  }

  /** Labels drawn from a sub-list of `y` are labels of `y`. */
  lemma LabelsWithin(vs: set<int>, sub: seq<int>, y: seq<int>)
    requires forall v :: v in vs ==> v in sub
    requires forall k :: 0 <= k < |sub| ==> sub[k] in y
    ensures forall v :: v in vs ==> v in y
  {
    forall v | v in vs ensures v in y {
      var k :| 0 <= k < |sub| && sub[k] == v;
    }
  }

  function Height(t: Tree): nat
  {
    match t
    case Leaf(_) => 0
    case Node(_, _, l, r) => 1 + (if Height(l) >= Height(r) then Height(l) else Height(r))
  }

  /** A node is one level deeper than its deeper child. */
  lemma NodeHeight(f: nat, th: real, l: Tree, r: Tree, bound: int)
    requires Height(l) < bound && Height(r) < bound
    ensures Height(Node(f, th, l, r)) <= bound
  {
  }

  function LeafCount(t: Tree): nat
  {
    match t
    case Leaf(_) => 1
    case Node(_, _, l, r) => LeafCount(l) + LeafCount(r)
  }

  function LeafValues(t: Tree): set<int>
  {
    match t
    case Leaf(v) => {v}
    case Node(_, _, l, r) => LeafValues(l) + LeafValues(r)
  }

  /** Every internal node of `t` tests a feature below `w`. */
  predicate Fits(t: Tree, w: nat)
  {
    match t
    case Leaf(_) => true
    case Node(f, _, l, r) => f < w && Fits(l, w) && Fits(r, w)
  }

  /** The empty-half guard of `build_tree` (custom_rf.py lines 75-77) never
      fires: `best_split` only returns candidates whose halves are both
      non-empty. So `build_tree` makes a leaf after `best_split` exactly when
      no candidate improves. */
  lemma NodeSplitIsBestSplit(X: Matrix, y: seq<int>, w: nat, features: seq<nat>, imp: seq<int> -> real)
    requires Rectangular(X, w) && |X| == |y| && ValidFeatures(features, w)
    ensures NodeSplit(X, y, w, features, imp) == BestSplit(X, y, w, features, imp)
    ensures NodeSplit(X, y, w, features, imp).None? <==> NoImprovingSplit(X, y, w, features, imp)
  {
    BestSplitSpec(X, y, w, features, imp);
    var r := BestSplit(X, y, w, features, imp);
    if r.Some? {
      var cs := Candidates(X, w, features);
      var k :| 0 <= k < |cs| && cs[k] == r.value && Improving(Score(X, y, w, cs[k], imp));
      assert Score(X, y, w, r.value, imp).Some?;
    }
  }

  /** The rows on either side of a split keep the row width. */
  lemma SplitRectangular(X: Matrix, y: seq<int>, w: nat, c: Choice)
    requires Rectangular(X, w) && |X| == |y| && c.feature < w
    ensures Rectangular(Split(X, y, c.feature, c.threshold).leftRows, w)
    ensures Rectangular(Split(X, y, c.feature, c.threshold).rightRows, w)
  {
    var h := Split(X, y, c.feature, c.threshold);
    forall k | 0 <= k < |h.leftRows| ensures |h.leftRows[k]| == w {
      var i :| 0 <= i < |X| && X[i] == h.leftRows[k];
    }
    forall k | 0 <= k < |h.rightRows| ensures |h.rightRows[k]| == w {
      var i :| 0 <= i < |X| && X[i] == h.rightRows[k];
    }
  }

  /** The stopping rules (custom_rf.py lines 56-61 and 67-71): `build_tree`
      returns a leaf exactly when `y` is empty, pure, shorter than
      `min_samples`, at `max_depth`, or has no improving split. The leaf holds
      0 for empty `y` and the most common label otherwise. */
  lemma BuildTreeLeafIff(X: Matrix, y: seq<int>, w: nat, depth: nat, p: Params,
                         draw: seq<bool> -> seq<nat>, path: seq<bool>, imp: seq<int> -> real)
    requires Rectangular(X, w) && |X| == |y|
    requires ValidDraws(draw, w, FeatureCount(p, w))
    ensures ValidFeatures(draw(path), w)
    ensures var t := BuildTree(X, y, w, depth, p, draw, path, imp);
            && (t.Leaf? <==> |y| == 0 || AllSame(y) || |y| < p.minSamples || depth >= p.maxDepth
                             || NoImprovingSplit(X, y, w, draw(path), imp))
            && (|y| == 0 ==> t == Leaf(0))
            && (|y| > 0 && t.Leaf? ==> t.value == MostCommon(y))
            && (t.Node? ==> BestSplit(X, y, w, draw(path), imp) == Some(Choice(t.feature, t.threshold)))
  {
    assert ValidDraw(draw(path), w, FeatureCount(p, w));
    NodeSplitIsBestSplit(X, y, w, draw(path), imp);
  }

  /** `predict_tree(x, tree)` (custom_rf.py lines 86-98): follow the left child
      when `x[feature] <= threshold`, the right one otherwise, and return the
      leaf's label; a node testing a feature `x` does not have answers 0. */
  function Predict(x: seq<real>, t: Tree): int
  {
    match t
    case Leaf(v) => v
    case Node(f, th, l, r) =>
      if f >= |x| then 0
      else if x[f] <= th then Predict(x, l)
      else Predict(x, r)
  }

  /** The prediction is the label of a leaf of the tree, or 0 when the walk
      hits a node testing a feature `x` lacks; on a tree that only tests
      features of `x` it is always a leaf's label. */
  lemma {:induction false} PredictReachesLeaf(x: seq<real>, t: Tree)
    ensures Predict(x, t) in LeafValues(t) || Predict(x, t) == 0
    ensures Fits(t, |x|) ==> Predict(x, t) in LeafValues(t)
  {
    match t
    case Leaf(_) =>
    case Node(f, th, l, r) =>
      PredictReachesLeaf(x, l);
      PredictReachesLeaf(x, r);
  }

  /** A tree built from a non-empty `y` predicts, for any sample with at least
      the training width, a label that occurs in `y`. */
  lemma PredictBuiltTree(X: Matrix, y: seq<int>, w: nat, p: Params,
                         draw: seq<bool> -> seq<nat>, x: seq<real>, imp: seq<int> -> real)
    requires Rectangular(X, w) && |X| == |y| && |y| > 0
    requires ValidDraws(draw, w, FeatureCount(p, w))
    requires |x| >= w
    ensures Predict(x, BuildTree(X, y, w, 0, p, draw, [], imp)) in y
  {
    var t := BuildTree(X, y, w, 0, p, draw, [], imp);
    FitsWider(t, w, |x|);
    PredictReachesLeaf(x, t);
  }

  lemma {:induction false} FitsWider(t: Tree, w: nat, w': nat)
    requires Fits(t, w) && w <= w'
    ensures Fits(t, w')
  {
    match t
    case Leaf(_) =>
    case Node(_, _, l, r) =>
      FitsWider(l, w, w');
      FitsWider(r, w, w');
  }
}
