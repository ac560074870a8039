/** The numeric library calls the pipeline makes, as opaque functions, and
    the one check of `f1_score` that decides whether it raises. */
module Learners {
  import opened Wrappers
  import opened Tables
  import opened Errors

  /** A fitted XGBoost model. Its parameters are whatever the library's fit
      produces; their content is not modelled. */
  datatype Classifier = Classifier(booster: seq<real>)

  datatype Library = Library(
    /** p-value of the two-sample Kolmogorov-Smirnov test (`ks_2samp`). */
    ksPValue: (seq<Cell>, seq<Cell>) -> real,
    /** Median and inter-quartile range of a column (the robust scaler's fit). */
    robustStats: seq<real> -> (real, real),
    /** `SMOTETomek(random_state=42).fit_resample(x, y)`. */
    resample: (Matrix, seq<real>) -> (Matrix, seq<real>),
    /** `XGBClassifier().fit(x, y)`: `ModelTrainer.train_model`. */
    fit: (Matrix, seq<real>) -> Classifier,
    /** `model.predict(x)`. */
    predict: (Classifier, Matrix) -> seq<real>,
    /** The value of `f1_score(y_true, y_pred)` when it does not raise. */
    f1: (seq<real>, seq<real>) -> real)

  /** The distinct values among `ys`. */
  function Labels(ys: seq<real>): set<real> {
    set i | 0 <= i < |ys| :: ys[i]
  }

  predicate Whole(x: real) {
    x.Floor as real == x
  }

  /** What `f1_score`'s default `average='binary'` with `pos_label=1` accepts
      of the labels and predictions taken together: whole numbers (anything
      else is a continuous target), at most two distinct values (three make
      the target multiclass), and 1 among them when there are two. */
  predicate BinaryTarget(ys: seq<real>) {
    && (forall i :: 0 <= i < |ys| ==> Whole(ys[i]))
    && (|Labels(ys)| <= 1 || (|Labels(ys)| == 2 && 1.0 in Labels(ys)))
  }

  /** `f1_score(y_true, y_pred)`: the lengths are checked first, then the
      kind of target; either raises `ValueError`. */
  function F1Score(lib: Library, yTrue: seq<real>, yPred: seq<real>): (r: Result<real, Error>)
    ensures r.Success? <==> |yTrue| == |yPred| && BinaryTarget(yTrue + yPred)
    ensures |yTrue| != |yPred| ==> r == Failure(InconsistentLengths(|yTrue|, |yPred|))
    ensures |yTrue| == |yPred| && r.Failure? ==> r == Failure(NotBinaryTarget)
    ensures r.Success? ==> r.value == lib.f1(yTrue, yPred)
  {
    if |yTrue| != |yPred| then Failure(InconsistentLengths(|yTrue|, |yPred|))
    else if !BinaryTarget(yTrue + yPred) then Failure(NotBinaryTarget)
    else Success(lib.f1(yTrue, yPred))
  }

  lemma SubsetCard<T>(a: set<T>, b: set<T>)
    requires a <= b
    ensures |a| <= |b|
  {
    assert b == a + (b - a);
    assert a * (b - a) == {};
  }

  /** Three different classes among the labels always make the binary F1
      score raise, whatever the predictions are. */
  lemma ThreeClassesNeverScore(lib: Library, yTrue: seq<real>, yPred: seq<real>, i: nat, j: nat, k: nat)
    requires i < |yTrue| && j < |yTrue| && k < |yTrue|
    requires yTrue[i] != yTrue[j] && yTrue[j] != yTrue[k] && yTrue[i] != yTrue[k]
    ensures F1Score(lib, yTrue, yPred).Failure?
  {
    if |yTrue| == |yPred| {
      var ys := yTrue + yPred;
      assert ys[i] == yTrue[i] && ys[j] == yTrue[j] && ys[k] == yTrue[k];
      var three := {yTrue[i], yTrue[j], yTrue[k]};
      assert |three| == 3;
      assert three <= Labels(ys);
      SubsetCard(three, Labels(ys));
    }
  }

  /** Labels and predictions of equal length that are all 0 or 1, such as
      those of a two-class target, always score. */
  lemma ZeroOneLabelsScore(lib: Library, yTrue: seq<real>, yPred: seq<real>)
    requires |yTrue| == |yPred|
    requires forall i :: 0 <= i < |yTrue| ==> yTrue[i] == 0.0 || yTrue[i] == 1.0
    requires forall i :: 0 <= i < |yPred| ==> yPred[i] == 0.0 || yPred[i] == 1.0
    ensures F1Score(lib, yTrue, yPred) == Success(lib.f1(yTrue, yPred))
  {
    var ys := yTrue + yPred;
    assert forall i :: 0 <= i < |ys| ==> ys[i] == 0.0 || ys[i] == 1.0 by {
      forall i | 0 <= i < |ys|
        ensures ys[i] == 0.0 || ys[i] == 1.0
      {
        if i < |yTrue| {
          assert ys[i] == yTrue[i];
        } else {
          assert ys[i] == yPred[i - |yTrue|];
        }
      }
    }
    if 1.0 in Labels(ys) {
      SubsetCard(Labels(ys), {0.0, 1.0});
    } else {
      SubsetCard(Labels(ys), {0.0});
    }
  }
}
