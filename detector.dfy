/** `AnomalyDetector_FI`: `fit` lays out the one-hot and scaled numeric
    features side by side, keeps the `n_fi` most important columns, splits the
    rows into attack and normal rows, reduces each part to representatives
    and trains one IsolationForest per part; `predict` lays out new rows the
    same way, keeps the columns chosen in `fit`, asks both forests and fuses
    their answers into one label per row.

    The library steps enter as values: the one-hot and scaled blocks, the
    importances XGBoost assigns, the clusterings MiniBatchKMeans finds and the
    +1/-1 answers of a trained IsolationForest. */
module Detector {
  import opened Common
  import opened Selection
  import opened Sampling
  import opened Fusion

  /** An IsolationForest as `fit` sets it up: number of trees, sub-sample
      size, contamination and the rows it is trained on. */
  datatype Forest = Forest(nEstimators: nat, maxSamples: nat, contamination: real, training: Matrix)

  /** `forest.predict(x)`: the forest's +1/-1 answer for every row. */
  function Answers(forest: Forest, x: Matrix, answer: (Forest, Row) -> int): (r: seq<int>)
    ensures |r| == |x|
  {
    seq(|x|, i requires 0 <= i < |x| => answer(forest, x[i]))
  }

  /** The forest `fit` trains on sampled rows. */
  function TrainedForest(nEstimators: nat, maxSamples: nat, contamination: real, sampled: Matrix): (f: Forest)
    ensures f.maxSamples <= maxSamples && f.maxSamples <= |sampled|
    ensures f.maxSamples == maxSamples || f.maxSamples == |sampled|
    ensures f.training == sampled && f.nEstimators == nEstimators && f.contamination == contamination
  {
    Forest(nEstimators, Min(maxSamples, |sampled|), contamination, sampled)
  }

  /** The computation of `fit` up to training the forests: lay out the
      features, keep the most important columns, split by label and sample
      each part. */
  method Train(xOhe: Matrix, xNum: Matrix, y: seq<int>, importances: seq<real>, nFi: nat, k: nat, kmeans: Matrix -> Clustering)
    returns (features: seq<nat>, attack: Matrix, normal: Matrix, sAttack: Matrix, sNormal: Matrix)
    requires |xOhe| == |xNum| == |y|
    requires forall i :: 0 <= i < |xOhe| ==> |xOhe[i]| + |xNum[i]| == |importances|
    requires forall m: Matrix :: |m| >= k ==> ValidClustering(|m|, kmeans(m), k)
    ensures var selection := FeatureSelection(Processed(xOhe, xNum), importances, nFi);
      && features == selection.1
      && (attack, normal) == SplitSubsystem(selection.0, y)
    ensures sAttack == Sampled(attack, kmeans(attack), k)
    ensures sNormal == Sampled(normal, kmeans(normal), k)
  {
    var xProcessed := Processed(xOhe, xNum);
    var selection := FeatureSelection(xProcessed, importances, nFi);
    features := selection.1;
    var parts := SplitSubsystem(selection.0, y);
    attack, normal := parts.0, parts.1;
    sAttack := MakeCluster(attack, k, kmeans(attack));
    sNormal := MakeCluster(normal, k, kmeans(normal));
  }

  class AnomalyDetector {
    const k: nat
    const nEstimators: nat := 50
    const maxSamples: nat := 100
    const cAttack: real
    const cNormal: real
    const nFi: nat
    const categoricalColumns: seq<string>
    var importantFeatures: seq<nat>
    var attackData: Matrix
    var normalData: Matrix
    var sampledAttack: Matrix
    var sampledNormal: Matrix
    var iforestAttack: Option<Forest>
    var iforestNormal: Option<Forest>
    var attackPrd: seq<int>
    var normalPrd: seq<int>

    /** The parameters; nothing is trained yet. */
    constructor (k: nat, nFi: nat, cAttack: real, cNormal: real, categoricalColumns: seq<string>)
      ensures this.k == k && this.nFi == nFi && this.cAttack == cAttack && this.cNormal == cNormal
      ensures this.categoricalColumns == categoricalColumns
      ensures iforestAttack == None && iforestNormal == None
    {
      this.k := k;
      this.nFi := nFi;
      this.cAttack := cAttack;
      this.cNormal := cNormal;
      this.categoricalColumns := categoricalColumns;
      iforestAttack := None;
      iforestNormal := None;
    }

    /** Both forests are trained. */
    predicate Fitted()
      reads this
    {
      iforestAttack.Some? && iforestNormal.Some?
    }

    /** `fit`: `xOhe` and `xNum` are the one-hot block and the scaled numeric
        block of the training rows, `importances` what XGBoost reports for
        their concatenation, and `kmeans` the clustering MiniBatchKMeans
        finds for a matrix. */
    method Fit(xOhe: Matrix, xNum: Matrix, y: seq<int>, importances: seq<real>, kmeans: Matrix -> Clustering)
      requires |xOhe| == |xNum| == |y|
      requires forall i :: 0 <= i < |xOhe| ==> |xOhe[i]| + |xNum[i]| == |importances|
      requires forall m: Matrix :: |m| >= k ==> ValidClustering(|m|, kmeans(m), k)
      modifies this
      ensures var selection := FeatureSelection(Processed(xOhe, xNum), importances, nFi);
        && importantFeatures == selection.1
        && (attackData, normalData) == SplitSubsystem(selection.0, y)
      ensures sampledAttack == Sampled(attackData, kmeans(attackData), k)
      ensures sampledNormal == Sampled(normalData, kmeans(normalData), k)
      ensures iforestAttack == Some(TrainedForest(50, 100, cAttack, sampledAttack))
      ensures iforestNormal == Some(TrainedForest(50, 100, cNormal, sampledNormal))
      ensures Fitted()
      ensures attackPrd == old(attackPrd) && normalPrd == old(normalPrd)
    {
      var features, attack, normal, sAttack, sNormal := Train(xOhe, xNum, y, importances, nFi, k, kmeans);
      importantFeatures := features;
      attackData, normalData := attack, normal;
      sampledAttack, sampledNormal := sAttack, sNormal;
      iforestAttack := Some(TrainedForest(nEstimators, maxSamples, cAttack, sAttack));
      iforestNormal := Some(TrainedForest(nEstimators, maxSamples, cNormal, sNormal));
    }

    /** `predict`: `xOhe` and `xNum` are the blocks of the new rows (the
        encoders fitted in `fit` applied to them) and `answer` is a trained
        forest's +1/-1 verdict on a row. */
    method Predict(xOhe: Matrix, xNum: Matrix, answer: (Forest, Row) -> int) returns (predictions: seq<int>)
      requires Fitted()
      requires |xOhe| == |xNum|
      requires forall i, j :: 0 <= i < |xOhe| && 0 <= j < |importantFeatures| ==> importantFeatures[j] < |xOhe[i]| + |xNum[i]|
      modifies this`attackPrd, this`normalPrd
      ensures |predictions| == |xOhe|
      ensures forall i :: 0 <= i < |predictions| ==> IsLabel(predictions[i])
      ensures var xFi := SelectColumns(Processed(xOhe, xNum), importantFeatures);
        var normalFlags := Flags(Answers(iforestNormal.value, xFi, answer));
        && attackPrd == Flags(Answers(iforestAttack.value, xFi, answer))
        && normalPrd == Complement(normalFlags)
        && forall i :: 0 <= i < |predictions| ==> predictions[i] == Decide(attackPrd[i], normalFlags[i])
    {
      var xProcessed := Processed(xOhe, xNum);
      var xFi := SelectColumns(xProcessed, importantFeatures);
      var attackFlags := Flags(Answers(iforestAttack.value, xFi, answer));
      var normalFlags := Flags(Answers(iforestNormal.value, xFi, answer));
      attackPrd := attackFlags;
      normalPrd := Complement(normalFlags);
      predictions := FuseVerdicts(attackFlags, normalFlags, |xOhe|);
    }
  }
}
