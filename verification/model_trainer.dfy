/** The trainer stage: split the stored arrays back into features and
    target, fit a classifier on the training split, score it on both splits
    and save it only when it neither underfits nor overfits. */
module ModelTrainer {
  import opened Wrappers
  import opened Tables
  import opened Errors
  import opened Entities
  import opened Learners
  import opened Storage
  import DataTransformation

  /** `arr[:, :-1], arr[:, -1]`: every column but the last, and the last;
      numpy raises when a row has no last column. */
  function SplitFeaturesTarget(arr: Matrix): (r: Result<(Matrix, seq<real>), Error>)
    ensures r.Success? <==> forall i :: 0 <= i < |arr| ==> |arr[i]| > 0
    ensures r.Failure? ==> r.error == NoTargetColumn
    ensures r.Success? ==> |r.value.0| == |arr| && |r.value.1| == |arr|
    ensures r.Success? ==> forall i :: 0 <= i < |arr| ==> arr[i] == r.value.0[i] + [r.value.1[i]]
  {
    if exists i :: 0 <= i < |arr| && |arr[i]| == 0 then Failure(NoTargetColumn)
    else
      var x := seq(|arr|, i requires 0 <= i < |arr| => arr[i][..|arr[i]| - 1]);
      var y := seq(|arr|, i requires 0 <= i < |arr| => arr[i][|arr[i]| - 1]);
      assert forall i :: 0 <= i < |arr| ==> arr[i] == x[i] + [y[i]] by {
        forall i | 0 <= i < |arr|
          ensures arr[i] == x[i] + [y[i]]
        {
          assert arr[i] == arr[i][..|arr[i]| - 1] + [arr[i][|arr[i]| - 1]];
        }
      }
      Success((x, y))
  }

  /** Splitting what the transformation stage stacked gives back its two
      parts: the target is the last column and nothing else. */
  lemma SplitAfterStack(x: Matrix, y: seq<real>)
    requires |x| == |y|
    ensures SplitFeaturesTarget(DataTransformation.Stack(x, y).value) == Success((x, y))
  {
    var arr := DataTransformation.Stack(x, y).value;
    var r := SplitFeaturesTarget(arr);
    assert r.Success?;
    forall i | 0 <= i < |arr|
      ensures r.value.0[i] == x[i] && r.value.1[i] == y[i]
    {
      assert arr[i] == x[i] + [y[i]];
      assert arr[i] == r.value.0[i] + [r.value.1[i]];
      assert |r.value.0[i]| == |x[i]|;
      assert r.value.0[i] == arr[i][..|x[i]|];
    }
    assert r.value.0 == x;
    assert r.value.1 == y;
  }

  /** Stacking the two parts of a split array rebuilds the array. */
  lemma StackAfterSplit(arr: Matrix)
    requires SplitFeaturesTarget(arr).Success?
    ensures DataTransformation.Stack(SplitFeaturesTarget(arr).value.0, SplitFeaturesTarget(arr).value.1)
         == Success(arr)
  {
    var (x, y) := SplitFeaturesTarget(arr).value;
    var s := DataTransformation.Stack(x, y).value;
    forall i | 0 <= i < |arr|
      ensures s[i] == arr[i]
    {
      assert s[i] == s[i][..|x[i]|] + [s[i][|x[i]|]];
      assert arr[i] == x[i] + [y[i]];
    }
    assert s == arr;
  }

  /** The two gates, underfitting first: the test score must reach the
      expected score, and train and test scores may differ by at most the
      threshold. A score exactly at either bound passes. */
  function CheckFit(cfg: ModelTrainerConfig, trainScore: real, testScore: real): (r: Result<(), Error>)
    ensures r.Success? <==>
      && cfg.expectedScore <= testScore
      && trainScore - cfg.overfittingThreshold <= testScore <= trainScore + cfg.overfittingThreshold
    ensures testScore < cfg.expectedScore ==> r == Failure(Underfitting(cfg.expectedScore, testScore))
    ensures r.Failure? && cfg.expectedScore <= testScore ==>
      r.error.Overfitting? && r.error.threshold == cfg.overfittingThreshold
      && r.error.difference > cfg.overfittingThreshold
      && (r.error.difference == trainScore - testScore || r.error.difference == testScore - trainScore)
  {
    if testScore < cfg.expectedScore then Failure(Underfitting(cfg.expectedScore, testScore))
    else
      var diff := Abs(trainScore - testScore);
      if diff > cfg.overfittingThreshold then Failure(Overfitting(diff, cfg.overfittingThreshold))
      else Success(())
  }

  function Abs(x: real): real {
    if x < 0.0 then -x else x
  }

  /** `initiate_model_trainer`: loads both arrays, fits the library's
      classifier on the training split, scores both splits with `f1_score`
      (train first) and, once both gates pass, saves the model at the
      configured path. */
  function InitiateModelTrainer(cfg: ModelTrainerConfig, transformation: DataTransformationArtifact,
                                fs: FileSystem, lib: Library)
    : (r: Result<(ModelTrainerArtifact, FileSystem), Error>)
    ensures r.Success? ==> r.value.0.modelFilePath == cfg.modelPath
    ensures r.Success? ==> CheckFit(cfg, r.value.0.f1TrainScore, r.value.0.f1TestScore).Success?
    ensures r.Success? ==>
      && transformation.transformedTrainPath in fs && fs[transformation.transformedTrainPath].ArrayFile?
      && transformation.transformedTestPath in fs && fs[transformation.transformedTestPath].ArrayFile?
      && SplitFeaturesTarget(fs[transformation.transformedTrainPath].data).Success?
      && SplitFeaturesTarget(fs[transformation.transformedTestPath].data).Success?
    ensures r.Success? ==>
      var (trainX, trainY) := SplitFeaturesTarget(fs[transformation.transformedTrainPath].data).value;
      && DataTransformation.Stack(trainX, trainY) == Success(fs[transformation.transformedTrainPath].data)
      && LoadModel(r.value.1, cfg.modelPath) == Success(lib.fit(trainX, trainY))
    ensures r.Success? ==>
      var (trainX, trainY) := SplitFeaturesTarget(fs[transformation.transformedTrainPath].data).value;
      var (testX, testY) := SplitFeaturesTarget(fs[transformation.transformedTestPath].data).value;
      var m := lib.fit(trainX, trainY);
      && F1Score(lib, trainY, lib.predict(m, trainX)) == Success(r.value.0.f1TrainScore)
      && F1Score(lib, testY, lib.predict(m, testX)) == Success(r.value.0.f1TestScore)
    ensures r.Success? ==> r.value.1.Keys == fs.Keys + {cfg.modelPath}
    ensures r.Success? ==> forall p :: p in fs && p != cfg.modelPath ==> r.value.1[p] == fs[p]
    ensures r.Success? && Sound(fs) ==> Sound(r.value.1)
  {
    var trainArr :- LoadArray(fs, transformation.transformedTrainPath);
    var testArr :- LoadArray(fs, transformation.transformedTestPath);
    var trainSplit :- SplitFeaturesTarget(trainArr);
    var testSplit :- SplitFeaturesTarget(testArr);
    var model := lib.fit(trainSplit.0, trainSplit.1);
    var trainScore :- F1Score(lib, trainSplit.1, lib.predict(model, trainSplit.0));
    var testScore :- F1Score(lib, testSplit.1, lib.predict(model, testSplit.0));
    var _ :- CheckFit(cfg, trainScore, testScore);
    StackAfterSplit(trainArr);
    Success((ModelTrainerArtifact(cfg.modelPath, trainScore, testScore),
             fs[cfg.modelPath := ObjectFile(ModelObject(model))]))
  }

  /** A stored train array whose target column holds three different
      classes never yields a saved model: the binary F1 score raises. */
  lemma MulticlassTargetFailsTraining(cfg: ModelTrainerConfig, transformation: DataTransformationArtifact,
                                      fs: FileSystem, lib: Library, i: nat, j: nat, k: nat)
    requires transformation.transformedTrainPath in fs && fs[transformation.transformedTrainPath].ArrayFile?
    requires SplitFeaturesTarget(fs[transformation.transformedTrainPath].data).Success?
    requires var y := SplitFeaturesTarget(fs[transformation.transformedTrainPath].data).value.1;
      i < |y| && j < |y| && k < |y| && y[i] != y[j] && y[j] != y[k] && y[i] != y[k]
    ensures InitiateModelTrainer(cfg, transformation, fs, lib).Failure?
  {
    var (trainX, trainY) := SplitFeaturesTarget(fs[transformation.transformedTrainPath].data).value;
    ThreeClassesNeverScore(lib, trainY, lib.predict(lib.fit(trainX, trainY), trainX), i, j, k);
  }
}
