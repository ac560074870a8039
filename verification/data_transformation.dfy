/** The transformation stage: separate the input features from the target,
    fit the label encoder and the feature pipeline on the training split
    only, transform both splits with what was fitted, rebalance both, and
    store each split as one array whose last column is the encoded target. */
module DataTransformation {
  import opened Wrappers
  import opened Text
  import opened Tables
  import opened Errors
  import opened Entities
  import LabelEncoding
  import FeaturePipeline
  import opened Learners
  import opened Storage
  import DataValidation

  /** `df.drop(target, axis=1)` and `df[target]`: the input features in
      their original order, and the target column's cells. */
  function SeparateTarget(f: Frame, target: string): (r: Result<(Frame, seq<Cell>), Error>)
    requires WellFormed(f)
    ensures r.Success? <==> HasColumn(f, target)
    ensures r.Failure? ==> r.error.ColumnsNotFound? && target in r.error.names
    ensures r.Success? ==> WellFormed(r.value.0) && r.value.0.rows == f.rows
    ensures r.Success? ==> SubsequenceOf(r.value.0.columns, f.columns)
    ensures r.Success? ==> forall c :: c in r.value.0.columns <==> c in f.columns && c.name != target
    ensures r.Success? ==> Column(target, r.value.1) in f.columns && |r.value.1| == f.rows
  {
    var features :- DataValidation.DropColumns(f, [target]);
    var col := Lookup(f.columns, target);
    Success((features, col.value.cells))
  }

  /** The target cells of a frame that has the target column. */
  function TargetCells(f: Frame, target: string): (y: seq<Cell>)
    requires HasColumn(f, target)
    ensures Column(target, y) in f.columns
  {
    Lookup(f.columns, target).value.cells
  }

  /** The encoded target as the float column numpy stacks it into. */
  function AsReals(codes: seq<nat>): (r: seq<real>)
    ensures |r| == |codes| && forall i :: 0 <= i < |codes| ==> r[i] == codes[i] as real
  {
    seq(|codes|, i requires 0 <= i < |codes| => codes[i] as real)
  }

  /** `np.c_[x, y]`: row `i` is row `i` of `x` with `y[i]` appended; numpy
      refuses arrays of different lengths. */
  function Stack(x: Matrix, y: seq<real>): (r: Result<Matrix, Error>)
    ensures r.Success? <==> |x| == |y|
    ensures r.Failure? ==> r.error == LengthMismatch(|x|, |y|)
    ensures r.Success? ==> |r.value| == |x|
    ensures r.Success? ==> forall i :: 0 <= i < |x| ==>
      && |r.value[i]| == |x[i]| + 1
      && r.value[i][..|x[i]|] == x[i]
      && r.value[i][|x[i]|] == y[i]
  {
    if |x| != |y| then Failure(LengthMismatch(|x|, |y|))
    else Success(seq(|x|, i requires 0 <= i < |x| => x[i] + [y[i]]))
  }

  /** One split as the stage stores it, given the fitted encoder and
      pipeline: the target separated and encoded, the other columns
      transformed, both rebalanced together, and row `i` of the result the
      rebalanced features of row `i` followed by its rebalanced target. */
  function EncodeSplit(p: FeaturePipeline.FeaturePipeline, enc: LabelEncoding.LabelEncoder, f: Frame,
                       target: string, lib: Library): (r: Result<Matrix, Error>)
    requires FeaturePipeline.Fitted(p) && WellFormed(f)
    ensures !HasColumn(f, target) ==> r.Failure?
    ensures r.Success? ==> HasColumn(f, target) && LabelEncoding.Transform(enc, TargetCells(f, target)).Success?
    ensures r.Success? ==>
      var features := SeparateTarget(f, target).value.0;
      var codes := LabelEncoding.Transform(enc, TargetCells(f, target)).value;
      && FeaturePipeline.Transform(p, features).Success?
      && var (x, y) := lib.resample(FeaturePipeline.Transform(p, features).value, AsReals(codes));
         |r.value| == |x| == |y| && forall i :: 0 <= i < |x| ==> r.value[i] == x[i] + [y[i]]
  {
    var sep :- SeparateTarget(f, target);
    TargetColumnIsUnique(f, target, sep.1);
    var codes :- LabelEncoding.Transform(enc, sep.1);
    var x :- FeaturePipeline.Transform(p, sep.0);
    var resampled := lib.resample(x, AsReals(codes));
    var arr :- Stack(resampled.0, resampled.1);
    assert forall i :: 0 <= i < |arr| ==> arr[i] == resampled.0[i] + [resampled.1[i]] by {
      forall i | 0 <= i < |arr|
        ensures arr[i] == resampled.0[i] + [resampled.1[i]]
      {
        assert arr[i] == arr[i][..|resampled.0[i]|] + [arr[i][|resampled.0[i]|]];
      }
    }
    Success(arr)
  }

  /** Without rebalancing (a resampler that returns its input), the stored
      split keeps the split's rows in order: row `i` holds the scaled
      features of row `i` and, last, the code of row `i`'s label. */
  lemma UnresampledRowsKeepTheirLabels(p: FeaturePipeline.FeaturePipeline, enc: LabelEncoding.LabelEncoder,
                                       f: Frame, target: string, lib: Library)
    requires FeaturePipeline.Fitted(p) && WellFormed(f)
    requires EncodeSplit(p, enc, f, target, lib).Success?
    requires var features := SeparateTarget(f, target).value.0;
      var x := FeaturePipeline.Transform(p, features).value;
      var y := AsReals(LabelEncoding.Transform(enc, TargetCells(f, target)).value);
      lib.resample(x, y) == (x, y)
    ensures var arr := EncodeSplit(p, enc, f, target, lib).value;
      var features := SeparateTarget(f, target).value.0;
      var w := |p.featureNames|;
      && |arr| == f.rows
      && forall i :: 0 <= i < f.rows ==>
           && |arr[i]| == w + 1
           && (forall j :: 0 <= j < w ==> arr[i][j] == FeaturePipeline.Scaled(p, j, features.columns[j].cells[i]))
           && exists c: nat :: c < |enc.classes| && arr[i][w] == c as real
                && Some(enc.classes[c]) == TargetCells(f, target)[i]
  {
    var arr := EncodeSplit(p, enc, f, target, lib).value;
    var features := SeparateTarget(f, target).value.0;
    var y := TargetCells(f, target);
    var codes := LabelEncoding.Transform(enc, y).value;
    var x := FeaturePipeline.Transform(p, features).value;
    var w := |p.featureNames|;
    forall i | 0 <= i < f.rows
      ensures |arr[i]| == w + 1
      ensures forall j :: 0 <= j < w ==> arr[i][j] == FeaturePipeline.Scaled(p, j, features.columns[j].cells[i])
      ensures exists c: nat :: c < |enc.classes| && arr[i][w] == c as real && Some(enc.classes[c]) == y[i]
    {
      assert arr[i] == x[i] + [AsReals(codes)[i]];
      assert arr[i][w] == codes[i] as real;
    }
  }

  /** What the stage computes between reading its inputs and writing its
      outputs. */
  datatype Transformed = Transformed(
    pipeline: FeaturePipeline.FeaturePipeline,
    encoder: LabelEncoding.LabelEncoder,
    train: Matrix,
    test: Matrix)

  /** The two objects fitted on a training split: the label encoder on its
      target and the feature pipeline on its other columns. */
  function FitOnTrain(target: string, train: Frame, lib: Library)
    : (r: Result<(FeaturePipeline.FeaturePipeline, LabelEncoding.LabelEncoder), Error>)
    requires WellFormed(train)
    ensures r.Success? ==> HasColumn(train, target) && FeaturePipeline.Fitted(r.value.0)
  {
    var sep :- SeparateTarget(train, target);
    var encoder :- LabelEncoding.Fit(sep.1);
    var pipeline :- FeaturePipeline.Fit(sep.0, lib.robustStats);
    Success((pipeline, encoder))
  }

  /** The body of `initiate_data_transformation` between the reads and the
      writes, in the source's order: separation of both splits, the label
      encoder fitted on the train target and applied to both targets, the
      feature pipeline fitted on the train features and applied to both,
      resampling of both splits, and stacking. */
  function TransformSplits(target: string, train: Frame, test: Frame, lib: Library): (r: Result<Transformed, Error>)
    requires WellFormed(train) && WellFormed(test)
    ensures !HasColumn(train, target) ==> r.Failure? && r.error.ColumnsNotFound?
    ensures r.Success? ==> HasColumn(train, target) && HasColumn(test, target)
    ensures r.Success? ==> LabelEncoding.StrictlySorted(r.value.encoder.classes)
    ensures r.Success? ==> forall v :: v in r.value.encoder.classes <==> Some(v) in TargetCells(train, target)
    ensures r.Success? ==> forall i :: 0 <= i < |TargetCells(test, target)| ==>
      TargetCells(test, target)[i].Some? && TargetCells(test, target)[i].value in r.value.encoder.classes
    ensures r.Success? ==> FitOnTrain(target, train, lib) == Success((r.value.pipeline, r.value.encoder))
    ensures r.Success? ==> FeaturePipeline.Fitted(r.value.pipeline)
    ensures r.Success? ==> forall c :: c in train.columns ==>
      (c.name in r.value.pipeline.featureNames <==> c.name != target)
    ensures r.Success? ==> target !in r.value.pipeline.featureNames
    ensures r.Success? ==> forall i :: 0 <= i < |r.value.train| ==> |r.value.train[i]| > 0
    ensures r.Success? ==> forall i :: 0 <= i < |r.value.test| ==> |r.value.test[i]| > 0
    ensures r.Success? ==> EncodeSplit(r.value.pipeline, r.value.encoder, train, target, lib) == Success(r.value.train)
    ensures r.Success? ==> EncodeSplit(r.value.pipeline, r.value.encoder, test, target, lib) == Success(r.value.test)
  {
    var trainSep :- SeparateTarget(train, target);
    var testSep :- SeparateTarget(test, target);
    var encoder :- LabelEncoding.Fit(trainSep.1);
    LabelEncoding.FittedLabelsEncode(trainSep.1);
    var trainCodes := LabelEncoding.Transform(encoder, trainSep.1).value;
    var testCodes :- LabelEncoding.Transform(encoder, testSep.1);
    var pipeline :- FeaturePipeline.Fit(trainSep.0, lib.robustStats);
    FeaturePipeline.FitThenTransform(trainSep.0, lib.robustStats);
    var trainX := FeaturePipeline.Transform(pipeline, trainSep.0).value;
    var testX :- FeaturePipeline.Transform(pipeline, testSep.0);
    var trainResampled := lib.resample(trainX, AsReals(trainCodes));
    var testResampled := lib.resample(testX, AsReals(testCodes));
    var trainArr :- Stack(trainResampled.0, trainResampled.1);
    var testArr :- Stack(testResampled.0, testResampled.1);
    TargetColumnIsUnique(train, target, trainSep.1);
    TargetColumnIsUnique(test, target, testSep.1);
    FeatureNamesOfSeparation(train, target, trainSep.0);
    Success(Transformed(pipeline, encoder, trainArr, testArr))
  }

  /** In a well-formed frame the cells of a column are determined by its name. */
  lemma TargetColumnIsUnique(f: Frame, target: string, y: seq<Cell>)
    requires WellFormed(f) && Column(target, y) in f.columns
    ensures HasColumn(f, target) && TargetCells(f, target) == y
  {
    var k :| 0 <= k < |f.columns| && f.columns[k] == Column(target, y);
    assert Names(f.columns)[k] == target;
    var found := Lookup(f.columns, target).value;
    var m :| 0 <= m < |f.columns| && f.columns[m] == found;
    assert Names(f.columns)[m] == target;
  }

  /** The names of the separated features are exactly the other columns'. */
  lemma FeatureNamesOfSeparation(f: Frame, target: string, features: Frame)
    requires forall c :: c in features.columns <==> c in f.columns && c.name != target
    ensures forall c :: c in f.columns ==> (c.name in Names(features.columns) <==> c.name != target)
    ensures target !in Names(features.columns)
  {
    forall c | c in f.columns
      ensures c.name in Names(features.columns) <==> c.name != target
    {
      if c.name != target {
        var k :| 0 <= k < |features.columns| && features.columns[k] == c;
        assert Names(features.columns)[k] == c.name;
      }
    }
  }

  /** `initiate_data_transformation`: reads the validated splits, transforms
      them, writes both arrays and both fitted objects to the configured
      paths and returns those paths. The schema file's content is a
      parameter. */
  function InitiateDataTransformation(cfg: DataTransformationConfig, schema: Schema,
                                      validation: DataValidationArtifact, fs: FileSystem, lib: Library)
    : (r: Result<(DataTransformationArtifact, FileSystem), Error>)
    requires Sound(fs)
    ensures r.Success? ==> r.value.0 == DataTransformationArtifact(
      cfg.transformerObjPath, cfg.transformedTrainPath, cfg.transformedTestPath, cfg.targetEncoderObjPath)
    ensures r.Success? ==>
      && validation.trainFilePath in fs && fs[validation.trainFilePath].CsvFile?
      && validation.testFilePath in fs && fs[validation.testFilePath].CsvFile?
    ensures r.Success? ==> Sound(r.value.1)
    ensures r.Success? ==> r.value.1.Keys == fs.Keys + OutputPaths(cfg)
    ensures r.Success? ==> forall p :: p in fs && p !in OutputPaths(cfg) ==> r.value.1[p] == fs[p]
    ensures r.Success? && DistinctOutputs(cfg) ==>
      var train := fs[validation.trainFilePath].frame;
      var test := fs[validation.testFilePath].frame;
      && FitOnTrain(schema.targetColumn, train, lib).Success?
      && var (p, enc) := FitOnTrain(schema.targetColumn, train, lib).value;
      && LoadTransformer(r.value.1, cfg.transformerObjPath) == Success(p)
      && LoadEncoder(r.value.1, cfg.targetEncoderObjPath) == Success(enc)
      && LoadArray(r.value.1, cfg.transformedTrainPath) == EncodeSplit(p, enc, train, schema.targetColumn, lib)
      && LoadArray(r.value.1, cfg.transformedTestPath) == EncodeSplit(p, enc, test, schema.targetColumn, lib)
  {
    var train :- ReadCsv(fs, validation.trainFilePath);
    var test :- ReadCsv(fs, validation.testFilePath);
    var t :- TransformSplits(schema.targetColumn, train, test, lib);
    var fs' := Written(fs, cfg, t);
    WrittenReadsBack(fs, cfg, t);
    Success((DataTransformationArtifact(
      cfg.transformerObjPath, cfg.transformedTrainPath, cfg.transformedTestPath, cfg.targetEncoderObjPath), fs'))
  }

  function OutputPaths(cfg: DataTransformationConfig): set<string> {
    {cfg.transformedTrainPath, cfg.transformedTestPath, cfg.transformerObjPath, cfg.targetEncoderObjPath}
  }

  /** The four saves, in the source's order. */
  function Written(fs: FileSystem, cfg: DataTransformationConfig, t: Transformed): (fs': FileSystem)
    requires Sound(fs) && FeaturePipeline.Fitted(t.pipeline)
    ensures Sound(fs')
    ensures fs'.Keys == fs.Keys + OutputPaths(cfg)
    ensures forall p :: p in fs && p !in OutputPaths(cfg) ==> fs'[p] == fs[p]
    ensures fs'[cfg.targetEncoderObjPath] == ObjectFile(EncoderObject(t.encoder))
  {
    fs[cfg.transformedTrainPath := ArrayFile(t.train)]
      [cfg.transformedTestPath := ArrayFile(t.test)]
      [cfg.transformerObjPath := ObjectFile(TransformerObject(t.pipeline))]
      [cfg.targetEncoderObjPath := ObjectFile(EncoderObject(t.encoder))]
  }

  /** The four output paths of a configuration differ from each other. */
  predicate DistinctOutputs(cfg: DataTransformationConfig) {
    && cfg.transformedTrainPath != cfg.transformedTestPath
    && cfg.transformedTrainPath != cfg.transformerObjPath
    && cfg.transformedTrainPath != cfg.targetEncoderObjPath
    && cfg.transformedTestPath != cfg.transformerObjPath
    && cfg.transformedTestPath != cfg.targetEncoderObjPath
    && cfg.transformerObjPath != cfg.targetEncoderObjPath
  }

  /** With distinct output paths, each of the four writes survives the
      later ones. */
  lemma WrittenReadsBack(fs: FileSystem, cfg: DataTransformationConfig, t: Transformed)
    requires Sound(fs) && FeaturePipeline.Fitted(t.pipeline)
    ensures DistinctOutputs(cfg) ==> var fs' := Written(fs, cfg, t);
      && LoadArray(fs', cfg.transformedTrainPath) == Success(t.train)
      && LoadArray(fs', cfg.transformedTestPath) == Success(t.test)
      && LoadTransformer(fs', cfg.transformerObjPath) == Success(t.pipeline)
      && LoadEncoder(fs', cfg.targetEncoderObjPath) == Success(t.encoder)
  {
  }

  /** A test label the training split never shows makes the stage fail:
      the encoder is not refitted on the test split. */
  lemma UnseenTestLabelFails(target: string, train: Frame, test: Frame, lib: Library, i: nat)
    requires WellFormed(train) && WellFormed(test)
    requires HasColumn(train, target) && HasColumn(test, target)
    requires i < |TargetCells(test, target)|
    requires TargetCells(test, target)[i].Some?
    requires TargetCells(test, target)[i] !in TargetCells(train, target)
    ensures TransformSplits(target, train, test, lib).Failure?
  {
  }
}
