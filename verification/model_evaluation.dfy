/** The evaluation stage: compare the newly trained bundle with the latest
    bundle in the registry on the validated test split, each bundle scored
    with its own transformer and target encoder. The first bundle ever is
    accepted without comparison; a later one must improve the F1 score by
    at least the change threshold, and otherwise the stage raises. */
module ModelEvaluation {
  import opened Wrappers
  import opened Tables
  import opened Errors
  import opened Entities
  import LabelEncoding
  import FeaturePipeline
  import opened Learners
  import opened Storage
  import opened ModelResolver
  import DataTransformation

  /** `df[names]`: the named columns in the order given; pandas raises
      `KeyError` naming the names that are not columns. */
  function SelectByNames(f: Frame, names: seq<string>): (r: Result<Frame, Error>)
    requires WellFormed(f)
    ensures r.Success? <==> forall n :: n in names ==> HasColumn(f, n)
    ensures r.Failure? ==> r.error.ColumnsNotFound?
    ensures r.Failure? ==> forall n :: n in r.error.names <==> n in names && !HasColumn(f, n)
    ensures r.Failure? ==> SubsequenceOf(r.error.names, names)
    ensures r.Success? ==> Names(r.value.columns) == names && r.value.rows == f.rows
    ensures r.Success? ==> forall k :: 0 <= k < |names| ==>
      r.value.columns[k] in f.columns && Some(r.value.columns[k]) == Lookup(f.columns, names[k])
    ensures r.Success? && Distinct(names) ==> WellFormed(r.value)
  {
    var absent := Filter(names, (n: string) => !HasColumn(f, n));
    if |absent| > 0 then
      assert absent[0] in names && !HasColumn(f, absent[0]);
      Failure(ColumnsNotFound(absent))
    else
      assert forall n :: n !in absent;
      assert forall k :: 0 <= k < |names| ==> HasColumn(f, names[k]) by {
        forall k | 0 <= k < |names|
          ensures HasColumn(f, names[k])
        {
          assert names[k] in names;
        }
      }
      var cols := seq(|names|, k requires 0 <= k < |names| => Lookup(f.columns, names[k]).value);
      Success(Frame(f.rows, cols))
  }

  /** A saved transformer, target encoder and model, used together. */
  datatype Bundle = Bundle(
    pipeline: FeaturePipeline.FeaturePipeline,
    encoder: LabelEncoding.LabelEncoder,
    model: Classifier)

  /** `load_object` of a transformer, a target encoder and a model, in that
      order. */
  function LoadBundle(fs: FileSystem, transformerPath: string, encoderPath: string, modelPath: string)
    : (r: Result<Bundle, Error>)
    requires Sound(fs)
    ensures r.Success? <==>
      && LoadTransformer(fs, transformerPath).Success?
      && LoadEncoder(fs, encoderPath).Success?
      && LoadModel(fs, modelPath).Success?
    ensures transformerPath !in fs ==> r == Failure(FileNotFound(transformerPath))
    ensures r.Success? ==> FeaturePipeline.Fitted(r.value.pipeline)
    ensures r.Success? ==>
      && r.value.pipeline == fs[transformerPath].obj.pipeline
      && r.value.encoder == fs[encoderPath].obj.encoder
      && r.value.model == fs[modelPath].obj.model
  {
    var pipeline :- LoadTransformer(fs, transformerPath);
    var encoder :- LoadEncoder(fs, encoderPath);
    var model :- LoadModel(fs, modelPath);
    Success(Bundle(pipeline, encoder, model))
  }

  /** Every name in `names` is a column of `f` holding only numbers and
      missing cells. */
  predicate NamedColumnsNumeric(f: Frame, names: seq<string>) {
    forall k :: 0 <= k < |names| ==>
      HasColumn(f, names[k]) && FeaturePipeline.NumericCells(Lookup(f.columns, names[k]).value.cells)
  }

  /** One bundle's F1 score on the test split: the target encoded with the
      bundle's own encoder is the ground truth, and the predictions are the
      bundle's model's on the test columns the bundle's transformer was
      fitted on (in its order), transformed by it. Scoring fails exactly
      when a label is missing or unknown to the encoder, a fitted column is
      absent or holds text, the split has no rows, or the codes and
      predictions are not a binary target with as many predictions as
      labels. */
  function ScoreBundle(b: Bundle, test: Frame, y: seq<Cell>, lib: Library): (r: Result<real, Error>)
    requires FeaturePipeline.Fitted(b.pipeline) && WellFormed(test)
    ensures r.Success? <==>
      && (forall i :: 0 <= i < |y| ==> y[i].Some? && y[i].value in b.encoder.classes)
      && NamedColumnsNumeric(test, b.pipeline.featureNames)
      && test.rows > 0
      && F1Score(lib, DataTransformation.AsReals(LabelEncoding.Transform(b.encoder, y).value),
                 Predictions(b, test, lib)).Success?
    ensures r.Success? ==>
      r.value == lib.f1(DataTransformation.AsReals(LabelEncoding.Transform(b.encoder, y).value),
                        Predictions(b, test, lib))
    ensures r.Success? ==>
      var features := SelectByNames(test, b.pipeline.featureNames).value;
      && WellFormed(features)
      && Predictions(b, test, lib) == lib.predict(b.model, FeaturePipeline.Transform(b.pipeline, features).value)
  {
    var codes :- LabelEncoding.Transform(b.encoder, y);
    var features :- SelectByNames(test, b.pipeline.featureNames);
    var x :- FeaturePipeline.Transform(b.pipeline, features);
    F1Score(lib, DataTransformation.AsReals(codes), lib.predict(b.model, x))
  }

  /** The bundle model's predictions on the transformed fitted columns of
      `test`, when those columns can be selected and transformed. */
  function Predictions(b: Bundle, test: Frame, lib: Library): (p: seq<real>)
    requires FeaturePipeline.Fitted(b.pipeline) && WellFormed(test)
  {
    match SelectByNames(test, b.pipeline.featureNames)
    case Failure(_) => []
    case Success(features) =>
      if !WellFormed(features) then []
      else match FeaturePipeline.Transform(b.pipeline, features)
        case Failure(_) => []
        case Success(x) => lib.predict(b.model, x)
  }

  /** A bundle's score depends on the test split only through the columns
      its transformer was fitted on: two splits with the same rows that
      agree on those columns score the same, or fail the same way. */
  lemma ScoreDependsOnlyOnFittedColumns(b: Bundle, t1: Frame, t2: Frame, y: seq<Cell>, lib: Library)
    requires FeaturePipeline.Fitted(b.pipeline) && WellFormed(t1) && WellFormed(t2) && t1.rows == t2.rows
    requires forall n :: n in b.pipeline.featureNames ==> Lookup(t1.columns, n) == Lookup(t2.columns, n)
    ensures ScoreBundle(b, t1, y, lib) == ScoreBundle(b, t2, y, lib)
  {
    var names := b.pipeline.featureNames;
    var s1 := SelectByNames(t1, names);
    var s2 := SelectByNames(t2, names);
    assert forall n :: n in names ==> (HasColumn(t1, n) <==> HasColumn(t2, n));
    if s1.Failure? {
      SubsequenceDetermined(s1.error.names, s2.error.names, names);
    } else {
      assert s1.value.columns == s2.value.columns by {
        forall k | 0 <= k < |names|
          ensures s1.value.columns[k] == s2.value.columns[k]
        {
          assert names[k] in names;
        }
      }
    }
    assert s1 == s2;
  }

  /** The acceptance rule: the current score must exceed the previous one
      by at least the change threshold; equality with the threshold
      accepts. */
  function AcceptanceRule(previousScore: real, currentScore: real, changeThreshold: real)
    : (r: Result<ModelEvaluationArtifact, Error>)
    ensures r.Success? <==> currentScore >= previousScore + changeThreshold
    ensures r.Success? ==> r.value.isModelAccepted
    ensures r.Success? ==> r.value.improvedModelAccuracy == Some(currentScore - previousScore)
    ensures r.Failure? ==> r.error == NotBetterThanPrevious(currentScore - previousScore, changeThreshold)
  {
    var diff := currentScore - previousScore;
    if diff < changeThreshold then Failure(NotBetterThanPrevious(diff, changeThreshold))
    else Success(ModelEvaluationArtifact(true, Some(diff)))
  }

  /** The bundle the registry's latest version holds. */
  function PreviousBundle(res: Resolver, listing: seq<string>, fs: FileSystem): (r: Result<Bundle, Error>)
    requires Sound(fs) && LatestVersion(listing).Success? && |listing| > 0
    ensures r.Success? ==> FeaturePipeline.Fitted(r.value.pipeline)
  {
    LoadBundle(fs,
      LatestBundlePath(res, listing, TransformerPart).value,
      LatestBundlePath(res, listing, TargetEncoderPart).value,
      LatestBundlePath(res, listing, ModelPart).value)
  }

  /** The bundle the current run produced. */
  function CurrentBundle(transformation: DataTransformationArtifact, trainer: ModelTrainerArtifact,
                         fs: FileSystem): (r: Result<Bundle, Error>)
    requires Sound(fs)
    ensures r.Success? ==> FeaturePipeline.Fitted(r.value.pipeline)
  {
    LoadBundle(fs, transformation.transformerObjectPath, transformation.targetEncoderPath, trainer.modelFilePath)
  }

  /** `initiate_model_evaluation`. An empty registry accepts the current
      bundle without loading anything. Otherwise both bundles are loaded
      (previous first), the test split is read, its target column taken,
      and both bundles are scored; a registry entry that is not an integer
      raises. The schema file's content and the registry's listing are
      parameters. */
  function InitiateModelEvaluation(cfg: ModelEvaluationConfig, res: Resolver, listing: seq<string>,
                                   schema: Schema, validation: DataValidationArtifact,
                                   transformation: DataTransformationArtifact, trainer: ModelTrainerArtifact,
                                   fs: FileSystem, lib: Library)
    : (r: Result<ModelEvaluationArtifact, Error>)
    requires Sound(fs)
    ensures |listing| == 0 ==> r == Success(ModelEvaluationArtifact(true, None))
    ensures LatestVersion(listing).Failure? ==> r.Failure? && r.error.MalformedVersion?
    ensures r.Success? ==> r.value.isModelAccepted
    ensures r.Success? ==> (r.value.improvedModelAccuracy.None? <==> |listing| == 0)
    ensures r.Success? && r.value.improvedModelAccuracy.Some? ==>
      r.value.improvedModelAccuracy.value >= cfg.changeThreshold
    ensures |listing| > 0 && r.Success? ==>
      && validation.testFilePath in fs && fs[validation.testFilePath].CsvFile?
      && HasColumn(fs[validation.testFilePath].frame, schema.targetColumn)
  {
    var latest :- LatestDirPath(res, listing);
    if latest.None? then Success(ModelEvaluationArtifact(true, None))
    else
      var scores :- CompareScores(res, listing, schema, validation, transformation, trainer, fs, lib);
      AcceptanceRule(scores.0, scores.1, cfg.changeThreshold)
  }

  /** Everything between finding the latest version and the acceptance
      rule: both bundles loaded (previous first), the test split read, its
      target column taken, and the previous and the current bundle's scores. */
  function CompareScores(res: Resolver, listing: seq<string>, schema: Schema, validation: DataValidationArtifact,
                         transformation: DataTransformationArtifact, trainer: ModelTrainerArtifact,
                         fs: FileSystem, lib: Library)
    : (r: Result<(real, real), Error>)
    requires Sound(fs) && LatestVersion(listing).Success? && |listing| > 0
    ensures r.Success? ==>
      && PreviousBundle(res, listing, fs).Success? && CurrentBundle(transformation, trainer, fs).Success?
      && validation.testFilePath in fs && fs[validation.testFilePath].CsvFile?
      && HasColumn(fs[validation.testFilePath].frame, schema.targetColumn)
    ensures r.Success? ==>
      var test := fs[validation.testFilePath].frame;
      var y := DataTransformation.TargetCells(test, schema.targetColumn);
      && ScoreBundle(PreviousBundle(res, listing, fs).value, test, y, lib) == Success(r.value.0)
      && ScoreBundle(CurrentBundle(transformation, trainer, fs).value, test, y, lib) == Success(r.value.1)
  {
    var previous :- PreviousBundle(res, listing, fs);
    var current :- CurrentBundle(transformation, trainer, fs);
    var test :- ReadCsv(fs, validation.testFilePath);
    if !HasColumn(test, schema.targetColumn) then Failure(ColumnsNotFound([schema.targetColumn]))
    else
      var y := DataTransformation.TargetCells(test, schema.targetColumn);
      var previousScore :- ScoreBundle(previous, test, y, lib);
      var currentScore :- ScoreBundle(current, test, y, lib);
      Success((previousScore, currentScore))
  }

  /** With a non-empty registry, the reported improvement is the current
      bundle's score minus the latest bundle's score, each computed on the
      same test split and target column (`CompareScores` says which). */
  lemma ImprovementIsScoreDifference(cfg: ModelEvaluationConfig, res: Resolver, listing: seq<string>,
                                     schema: Schema, validation: DataValidationArtifact,
                                     transformation: DataTransformationArtifact, trainer: ModelTrainerArtifact,
                                     fs: FileSystem, lib: Library)
    requires Sound(fs) && |listing| > 0
    requires InitiateModelEvaluation(cfg, res, listing, schema, validation, transformation, trainer, fs, lib).Success?
    ensures LatestVersion(listing).Success?
    ensures CompareScores(res, listing, schema, validation, transformation, trainer, fs, lib).Success?
    ensures var scores := CompareScores(res, listing, schema, validation, transformation, trainer, fs, lib).value;
      InitiateModelEvaluation(cfg, res, listing, schema, validation, transformation, trainer, fs, lib).value
        == ModelEvaluationArtifact(true, Some(scores.1 - scores.0))
  {
    var r := InitiateModelEvaluation(cfg, res, listing, schema, validation, transformation, trainer, fs, lib);
    assert LatestDirPath(res, listing).Success?;
    var scores := CompareScores(res, listing, schema, validation, transformation, trainer, fs, lib);
    assert scores.Success?;
    assert r == AcceptanceRule(scores.value.0, scores.value.1, cfg.changeThreshold);
  }

  /** A bundle compared with itself is no improvement: when the latest
      registry paths are the current run's paths, the stage accepts only
      when the change threshold is at most zero, and then reports 0. */
  lemma SameBundleIsNoImprovement(cfg: ModelEvaluationConfig, res: Resolver, listing: seq<string>,
                                  schema: Schema, validation: DataValidationArtifact,
                                  transformation: DataTransformationArtifact, trainer: ModelTrainerArtifact,
                                  fs: FileSystem, lib: Library)
    requires Sound(fs) && |listing| > 0 && LatestVersion(listing).Success?
    requires LatestBundlePath(res, listing, TransformerPart) == Success(transformation.transformerObjectPath)
    requires LatestBundlePath(res, listing, TargetEncoderPart) == Success(transformation.targetEncoderPath)
    requires LatestBundlePath(res, listing, ModelPart) == Success(trainer.modelFilePath)
    ensures var r := InitiateModelEvaluation(cfg, res, listing, schema, validation, transformation, trainer, fs, lib);
      r.Success? ==> r.value.improvedModelAccuracy == Some(0.0) && cfg.changeThreshold <= 0.0
  {
    var r := InitiateModelEvaluation(cfg, res, listing, schema, validation, transformation, trainer, fs, lib);
    assert PreviousBundle(res, listing, fs) == CurrentBundle(transformation, trainer, fs);
    if r.Success? {
      assert LatestDirPath(res, listing).Success?;
      var scores := CompareScores(res, listing, schema, validation, transformation, trainer, fs, lib);
      assert scores.Success?;
      assert scores.value.0 == scores.value.1;
      assert r == AcceptanceRule(scores.value.0, scores.value.1, cfg.changeThreshold);
    }
  }

  /** Lowering the change threshold never turns an accepted bundle into a
      rejected one. */
  lemma LowerThresholdStillAccepts(cfg: ModelEvaluationConfig, lower: real, res: Resolver, listing: seq<string>,
                                   schema: Schema, validation: DataValidationArtifact,
                                   transformation: DataTransformationArtifact, trainer: ModelTrainerArtifact,
                                   fs: FileSystem, lib: Library)
    requires Sound(fs) && lower <= cfg.changeThreshold
    requires InitiateModelEvaluation(cfg, res, listing, schema, validation, transformation, trainer, fs, lib).Success?
    ensures InitiateModelEvaluation(ModelEvaluationConfig(lower), res, listing, schema, validation,
                                    transformation, trainer, fs, lib)
         == InitiateModelEvaluation(cfg, res, listing, schema, validation, transformation, trainer, fs, lib)
  {
    if |listing| > 0 {
      ImprovementIsScoreDifference(cfg, res, listing, schema, validation, transformation, trainer, fs, lib);
      var scores := CompareScores(res, listing, schema, validation, transformation, trainer, fs, lib).value;
      EvaluationAppliesRule(cfg, res, listing, schema, validation, transformation, trainer, fs, lib);
      EvaluationAppliesRule(ModelEvaluationConfig(lower), res, listing, schema, validation, transformation,
                            trainer, fs, lib);
      assert scores.1 - scores.0 >= cfg.changeThreshold;
    }
  }

  /** With a non-empty, well-named registry whose bundles both score, the
      outcome is the acceptance rule applied to the two scores. */
  lemma EvaluationAppliesRule(cfg: ModelEvaluationConfig, res: Resolver, listing: seq<string>,
                              schema: Schema, validation: DataValidationArtifact,
                              transformation: DataTransformationArtifact, trainer: ModelTrainerArtifact,
                              fs: FileSystem, lib: Library)
    requires Sound(fs) && |listing| > 0 && LatestVersion(listing).Success?
    requires CompareScores(res, listing, schema, validation, transformation, trainer, fs, lib).Success?
    ensures var scores := CompareScores(res, listing, schema, validation, transformation, trainer, fs, lib).value;
      InitiateModelEvaluation(cfg, res, listing, schema, validation, transformation, trainer, fs, lib)
        == AcceptanceRule(scores.0, scores.1, cfg.changeThreshold)
  {
    assert LatestDirPath(res, listing).Success? && LatestDirPath(res, listing).value.Some?;
  }
}
