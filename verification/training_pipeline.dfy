/** The training pipeline as far as `TrainingPipeline.start` runs it:
    ingestion, validation and transformation, each stage configured from
    the same run configuration and fed the previous stage's artifact. The
    first stage that raises ends the run; the files written before it stay. */
module TrainingPipeline {
  import opened Wrappers
  import opened Text
  import opened Tables
  import opened Errors
  import opened Entities
  import opened Learners
  import opened Storage
  import DataValidation
  import DataTransformation

  /** `df.replace({'na': np.NAN})`: the text `na` becomes a missing cell. */
  function ReplaceNa(f: Frame): (g: Frame)
    requires WellFormed(f)
    ensures WellFormed(g) && g.rows == f.rows && Names(g.columns) == Names(f.columns)
    ensures forall j, i :: 0 <= j < |f.columns| && 0 <= i < f.rows ==>
      g.columns[j].cells[i] == (if f.columns[j].cells[i] == Some(Text("na")) then None else f.columns[j].cells[i])
  {
    var cols := seq(|f.columns|, j requires 0 <= j < |f.columns| =>
      Column(f.columns[j].name, seq(f.rows, i requires 0 <= i < f.rows =>
        if f.columns[j].cells[i] == Some(Text("na")) then None else f.columns[j].cells[i])));
    assert Names(cols) == Names(f.columns);
    Frame(f.rows, cols)
  }

  /** The rows of `f` at the given positions, in that order. */
  function TakeRows(f: Frame, positions: seq<nat>): (g: Frame)
    requires WellFormed(f) && forall k :: 0 <= k < |positions| ==> positions[k] < f.rows
    ensures WellFormed(g) && g.rows == |positions| && Names(g.columns) == Names(f.columns)
    ensures forall j, k :: 0 <= j < |f.columns| && 0 <= k < |positions| ==>
      g.columns[j].cells[k] == f.columns[j].cells[positions[k]]
  {
    var cols := seq(|f.columns|, j requires 0 <= j < |f.columns| =>
      Column(f.columns[j].name, seq(|positions|, k requires 0 <= k < |positions| =>
        f.columns[j].cells[positions[k]])));
    assert Names(cols) == Names(f.columns);
    Frame(|positions|, cols)
  }

  /** `ceil(x)` for a non-negative real. */
  function Ceil(x: real): (n: int)
    ensures n as real >= x && (n - 1) as real < x
  {
    -((-x).Floor)
  }

  /** `t * n` for a whole number `n`, written as `n` additions of `t` so
      that the split's arithmetic stays linear. */
  function Share(t: real, n: nat): (x: real)
    ensures 0.0 <= t <= 1.0 ==> 0.0 <= x <= n as real
    ensures 0.0 < t && n > 0 ==> x > 0.0
  {
    if n == 0 then 0.0 else Share(t, n - 1) + t
  }

  lemma {:induction false} ShareIsProduct(t: real, n: nat)
    ensures Share(t, n) == t * n as real
  {
    if n > 0 {
      ShareIsProduct(t, n - 1);
      assert t * n as real == t * (n - 1) as real + t;
    }
  }

  /** `order` lists every row position `0 .. n - 1` exactly once: the
      shuffled order that `train_test_split` draws from its fixed seed. */
  predicate IsPermutation(order: seq<nat>, n: nat) {
    && |order| == n
    && Distinct(order)
    && (forall k :: 0 <= k < |order| ==> order[k] < n)
    && (forall i :: 0 <= i < n ==> i in order)
  }

  /** Cutting a permutation anywhere puts every position in exactly one of
      the two parts. */
  lemma CutPermutation(order: seq<nat>, n: nat, m: nat)
    requires IsPermutation(order, n) && m <= n
    ensures forall i :: 0 <= i < n ==> (i in order[m..] <==> i !in order[..m])
  {
    forall i | 0 <= i < n
      ensures i in order[m..] <==> i !in order[..m]
    {
      assert i in order;
      var k :| 0 <= k < n && order[k] == i;
      if k < m {
        assert order[..m][k] == i;
        forall k2 | 0 <= k2 < n - m
          ensures order[m..][k2] != i
        {
          assert order[m..][k2] == order[m + k2];
        }
      } else {
        assert order[m..][k - m] == i;
        forall k2 | 0 <= k2 < m
          ensures order[..m][k2] != i
        {
          assert order[..m][k2] == order[k2];
        }
      }
    }
  }

  /** The row positions `train_test_split(df, test_size=t)` gives each side:
      the first `ceil(t * n)` shuffled positions go to the test split and
      the rest to the train split. A float test size outside the open
      interval (0, 1) raises, and so does a split that would leave the
      train side empty. */
  function SplitPositions(n: nat, testSize: real, order: seq<nat>): (r: Result<(seq<nat>, seq<nat>), Error>)
    requires IsPermutation(order, n)
    ensures r.Success? <==> 0.0 < testSize < 1.0 && Ceil(Share(testSize, n)) < n
    ensures !(0.0 < testSize < 1.0) ==> r == Failure(InvalidTestSize(testSize))
    ensures 0.0 < testSize < 1.0 && r.Failure? ==> r == Failure(EmptyTrainSplit(n))
    ensures r.Success? ==>
      var (trainPos, testPos) := r.value;
      && |trainPos| + |testPos| == n && |trainPos| > 0 && |testPos| > 0
      && |testPos| as real >= Share(testSize, n) > (|testPos| - 1) as real
      && (forall k :: 0 <= k < |trainPos| ==> trainPos[k] < n)
      && (forall k :: 0 <= k < |testPos| ==> testPos[k] < n)
  {
    if !(0.0 < testSize < 1.0) then Failure(InvalidTestSize(testSize))
    else
      var nTest := Ceil(Share(testSize, n));
      if nTest >= n then Failure(EmptyTrainSplit(n))
      else
        Success((order[nTest..], order[..nTest]))
  }

  /** Every row lands in exactly one split, and in it once. */
  lemma SplitPartitionsRows(n: nat, testSize: real, order: seq<nat>)
    requires IsPermutation(order, n)
    requires SplitPositions(n, testSize, order).Success?
    ensures var (trainPos, testPos) := SplitPositions(n, testSize, order).value;
      && Distinct(trainPos) && Distinct(testPos)
      && forall i :: 0 <= i < n ==> (i in trainPos <==> i !in testPos)
  {
    var nTest := Ceil(Share(testSize, n));
    var (trainPos, testPos) := SplitPositions(n, testSize, order).value;
    assert trainPos == order[nTest..] && testPos == order[..nTest];
    CutPermutation(order, n, nTest);
    forall a, b | 0 <= a < b < |trainPos|
      ensures trainPos[a] != trainPos[b]
    {
      assert trainPos[a] == order[nTest + a] && trainPos[b] == order[nTest + b];
    }
  }

  /** With the configured test share of 0.2, the split leaves a non-empty
      train side exactly when the collection has at least two rows. */
  lemma FifthLeavesTrainRows(n: nat)
    ensures Ceil(Share(0.2, n)) < n <==> n >= 2
  {
    var c := Ceil(Share(0.2, n));
    ShareIsProduct(0.2, n);
    if n >= 2 {
      assert Share(0.2, n) <= n as real - 1.6;
    } else if n == 1 {
      assert c == 1;
    } else {
      assert c == 0;
    }
  }

  /** `train_test_split(df, test_size=t, random_state=42)`: the train and
      test frames hold the rows at the positions `SplitPositions` assigns,
      in shuffled order, with every column of `f`. */
  function TrainTestSplit(f: Frame, testSize: real, order: seq<nat>): (r: Result<(Frame, Frame), Error>)
    requires WellFormed(f) && IsPermutation(order, f.rows)
    ensures r.Success? <==> SplitPositions(f.rows, testSize, order).Success?
    ensures r.Failure? ==> r.error == SplitPositions(f.rows, testSize, order).error
    ensures r.Success? ==>
      var (trainPos, testPos) := SplitPositions(f.rows, testSize, order).value;
      r.value == (TakeRows(f, trainPos), TakeRows(f, testPos))
  {
    var (trainPos, testPos) :- SplitPositions(f.rows, testSize, order);
    Success((TakeRows(f, trainPos), TakeRows(f, testPos)))
  }

  /** `initiate_data_ingestion` once the collection is exported (a
      parameter): missing-value markers replaced, the split made, and both
      splits written as CSV at the configured paths. A split that raises
      writes nothing. */
  function InitiateDataIngestion(cfg: DataIngestionConfig, collection: Frame, order: seq<nat>, fs: FileSystem)
    : (r: Result<(DataIngestionArtifact, FileSystem), Error>)
    requires Sound(fs) && WellFormed(collection) && IsPermutation(order, collection.rows)
    ensures r.Success? <==>
      0.0 < cfg.testSize < 1.0 && Ceil(Share(cfg.testSize, collection.rows)) < collection.rows
    ensures r.Failure? ==> r.error == SplitPositions(collection.rows, cfg.testSize, order).error
    ensures r.Success? ==> r.value.0 == DataIngestionArtifact(cfg.trainFilePath, cfg.testFilePath)
    ensures r.Success? ==>
      r.value.1 == WriteSplit(fs, cfg, TrainTestSplit(ReplaceNa(collection), cfg.testSize, order).value)
  {
    var split :- TrainTestSplit(ReplaceNa(collection), cfg.testSize, order);
    Success((DataIngestionArtifact(cfg.trainFilePath, cfg.testFilePath), WriteSplit(fs, cfg, split)))
  }

  /** The two `to_csv` calls: train first, then test. */
  function WriteSplit(fs: FileSystem, cfg: DataIngestionConfig, split: (Frame, Frame)): (fs': FileSystem)
    requires Sound(fs) && WellFormed(split.0) && WellFormed(split.1)
    ensures Sound(fs')
    ensures fs'.Keys == fs.Keys + {cfg.trainFilePath, cfg.testFilePath}
    ensures forall p :: p in fs && p !in {cfg.trainFilePath, cfg.testFilePath} ==> fs'[p] == fs[p]
    ensures ReadCsv(fs', cfg.testFilePath) == Success(split.1)
    ensures cfg.trainFilePath != cfg.testFilePath ==> ReadCsv(fs', cfg.trainFilePath) == Success(split.0)
  {
    fs[cfg.trainFilePath := CsvFile(split.0)][cfg.testFilePath := CsvFile(split.1)]
  }

  datatype Stage = IngestionStage | ValidationStage | TransformationStage

  /** The exception `start` re-raises: which stage raised, and why. */
  datatype StageFailure = StageFailed(stage: Stage, cause: Error)

  /** What a run leaves behind: the files written so far, and either the
      last artifact or the failure that ended the run. */
  datatype Run = Run(fs: FileSystem, outcome: Result<DataTransformationArtifact, StageFailure>)

  /** What the run needs from outside the modelled code: the exported
      collection, the split's row order, the schema file's content and the
      numeric library. */
  datatype Inputs = Inputs(collection: Frame, order: seq<nat>, schema: Schema, lib: Library)

  predicate ValidInputs(inputs: Inputs) {
    WellFormed(inputs.collection) && IsPermutation(inputs.order, inputs.collection.rows)
  }

  /** The split `start_data_ingestion` makes of the collection. */
  function IngestedSplit(pc: TrainingPipelineConfig, inputs: Inputs): Result<(Frame, Frame), Error>
    requires ValidInputs(inputs)
  {
    TrainTestSplit(ReplaceNa(inputs.collection), IngestionConfigFor(pc).testSize, inputs.order)
  }

  /** Going from `fs` to `fs'` adds files only under `root` and leaves
      every file outside `root` as it was. */
  predicate ConfinedTo(fs: FileSystem, fs': FileSystem, root: string) {
    && (forall p :: p in fs' && p !in fs ==> Under(p, root))
    && (forall p :: p in fs && !Under(p, root) ==> p in fs' && fs'[p] == fs[p])
  }

  lemma ConfinedTrans(fs1: FileSystem, fs2: FileSystem, fs3: FileSystem, root: string)
    requires ConfinedTo(fs1, fs2, root) && ConfinedTo(fs2, fs3, root)
    ensures ConfinedTo(fs1, fs3, root)
  {
  }

  /** Writing a set of paths that all lie under `root` is confined to it. */
  lemma WriteConfined(fs: FileSystem, fs': FileSystem, written: set<string>, root: string)
    requires forall p :: p in written ==> Under(p, root)
    requires fs'.Keys == fs.Keys + written
    requires forall p :: p in fs && p !in written ==> fs'[p] == fs[p]
    ensures ConfinedTo(fs, fs', root)
  {
  }

  /** Writing the validation outputs of a configuration whose three
      output paths lie under `root` is confined to `root`. */
  lemma ValidationWriteConfined(vc: DataValidationConfig, root: string, fs: FileSystem, fs': FileSystem)
    requires Under(vc.reportFileName, root) && Under(vc.validTrainFilePath, root) && Under(vc.validTestFilePath, root)
    requires fs'.Keys == fs.Keys + {vc.reportFileName, vc.validTrainFilePath, vc.validTestFilePath}
    requires forall p :: p in fs && p !in {vc.reportFileName, vc.validTrainFilePath, vc.validTestFilePath} ==>
      fs'[p] == fs[p]
    ensures ConfinedTo(fs, fs', root)
  {
    WriteConfined(fs, fs', {vc.reportFileName, vc.validTrainFilePath, vc.validTestFilePath}, root);
  }

  /** Writing the two ingestion outputs of a configuration whose paths lie
      under `root` is confined to `root`. */
  lemma IngestionWriteConfined(ic: DataIngestionConfig, root: string, fs: FileSystem, fs': FileSystem)
    requires Under(ic.trainFilePath, root) && Under(ic.testFilePath, root)
    requires fs'.Keys == fs.Keys + {ic.trainFilePath, ic.testFilePath}
    requires forall p :: p in fs && p !in {ic.trainFilePath, ic.testFilePath} ==> fs'[p] == fs[p]
    ensures ConfinedTo(fs, fs', root)
  {
    WriteConfined(fs, fs', {ic.trainFilePath, ic.testFilePath}, root);
  }

  lemma TransformationOutputsUnderRoot(pc: TrainingPipelineConfig)
    ensures forall p :: p in DataTransformation.OutputPaths(TransformationConfigFor(pc)) ==> Under(p, pc.artifactDir)
  {
    TransformationPathsUnderRoot(pc);
    OutputsUnder(TransformationConfigFor(pc), pc.artifactDir);
  }

  lemma OutputsUnder(cfg: DataTransformationConfig, root: string)
    requires Under(cfg.transformedTrainPath, root) && Under(cfg.transformedTestPath, root)
    requires Under(cfg.transformerObjPath, root) && Under(cfg.targetEncoderObjPath, root)
    ensures forall p :: p in DataTransformation.OutputPaths(cfg) ==> Under(p, root)
  {
  }

  /** `start_data_ingestion`: the run's ingestion configuration asks for a
      test share of 0.2, so the stage raises exactly on a collection of
      fewer than two rows. */
  function StartDataIngestion(pc: TrainingPipelineConfig, inputs: Inputs, fs: FileSystem)
    : (r: Result<(DataIngestionArtifact, FileSystem), Error>)
    requires Sound(fs) && ValidInputs(inputs)
    ensures r.Success? <==> inputs.collection.rows >= 2
    ensures r.Failure? ==> r.error == EmptyTrainSplit(inputs.collection.rows)
    ensures r.Success? ==> Sound(r.value.1)
    ensures r.Success? ==>
      r.value.0 == DataIngestionArtifact(IngestionConfigFor(pc).trainFilePath, IngestionConfigFor(pc).testFilePath)
    ensures r.Success? ==> ConfinedTo(fs, r.value.1, pc.artifactDir)
  {
    var ic := IngestionConfigFor(pc);
    FifthLeavesTrainRows(inputs.collection.rows);
    var r := InitiateDataIngestion(ic, inputs.collection, inputs.order, fs);
    if r.Failure? then r
    else
      IngestionPathsUnderRoot(pc);
      IngestionWriteConfined(ic, pc.artifactDir, fs, r.value.1);
      r
  }

  /** `start_data_validation`. */
  function StartDataValidation(pc: TrainingPipelineConfig, inputs: Inputs, ingestion: DataIngestionArtifact,
                               fs: FileSystem)
    : (r: Result<(DataValidationArtifact, FileSystem), Error>)
    requires Sound(fs)
    ensures r.Success? ==> Sound(r.value.1)
    ensures r.Success? ==> var vc := ValidationConfigFor(pc);
      r.value.0 == DataValidationArtifact(vc.reportFileName, vc.validTrainFilePath, vc.validTestFilePath, true)
    ensures r.Success? ==> ConfinedTo(fs, r.value.1, pc.artifactDir)
  {
    var vc := ValidationConfigFor(pc);
    var r := DataValidation.InitiateDataValidation(vc, inputs.schema, ingestion, fs, inputs.lib.ksPValue);
    if r.Failure? then r
    else
      ValidationPathsUnderRoot(pc);
      ValidationWriteConfined(vc, pc.artifactDir, fs, r.value.1);
      r
  }

  /** `start_data_transformation`. */
  function StartDataTransformation(pc: TrainingPipelineConfig, inputs: Inputs, validation: DataValidationArtifact,
                                   fs: FileSystem)
    : (r: Result<(DataTransformationArtifact, FileSystem), Error>)
    requires Sound(fs)
    ensures r.Success? ==> Sound(r.value.1)
    ensures r.Success? ==> var tc := TransformationConfigFor(pc);
      r.value.0 == DataTransformationArtifact(
        tc.transformerObjPath, tc.transformedTrainPath, tc.transformedTestPath, tc.targetEncoderObjPath)
    ensures r.Success? ==> ConfinedTo(fs, r.value.1, pc.artifactDir)
  {
    var tc := TransformationConfigFor(pc);
    var r := DataTransformation.InitiateDataTransformation(tc, inputs.schema, validation, fs, inputs.lib);
    if r.Failure? then r
    else
      TransformationOutputsUnderRoot(pc);
      WriteConfined(fs, r.value.1, DataTransformation.OutputPaths(tc), pc.artifactDir);
      r
  }

  /** Ingestion hands on the split: both halves of the split collection
      can be read back from the paths of its artifact. */
  lemma IngestionWritesSplit(pc: TrainingPipelineConfig, inputs: Inputs, fs: FileSystem)
    requires Sound(fs) && ValidInputs(inputs)
    requires StartDataIngestion(pc, inputs, fs).Success?
    ensures IngestedSplit(pc, inputs).Success?
    ensures var r := StartDataIngestion(pc, inputs, fs);
      && ReadCsv(r.value.1, r.value.0.trainFilePath) == Success(IngestedSplit(pc, inputs).value.0)
      && ReadCsv(r.value.1, r.value.0.testFilePath) == Success(IngestedSplit(pc, inputs).value.1)
  {
    var ic := IngestionConfigFor(pc);
    assert StartDataIngestion(pc, inputs, fs) == InitiateDataIngestion(ic, inputs.collection, inputs.order, fs);
  }

  /** Validation reads the two files the ingestion artifact names and hands
      on what `Validate` makes of them: the cleaned splits can be read back
      from the paths of its own artifact. */
  lemma ValidationWritesCleanedSplits(pc: TrainingPipelineConfig, inputs: Inputs, ingestion: DataIngestionArtifact,
                                      fs: FileSystem)
    requires Sound(fs)
    requires StartDataValidation(pc, inputs, ingestion, fs).Success?
    ensures var r := StartDataValidation(pc, inputs, ingestion, fs);
      && ReadCsv(fs, ingestion.trainFilePath).Success? && ReadCsv(fs, ingestion.testFilePath).Success?
      && var v := DataValidation.Validate(inputs.schema, DefaultMissingThreshold,
           ReadCsv(fs, ingestion.trainFilePath).value, ReadCsv(fs, ingestion.testFilePath).value, inputs.lib.ksPValue);
      && v.Success?
      && ReadCsv(r.value.1, r.value.0.trainFilePath) == Success(v.value.train)
      && ReadCsv(r.value.1, r.value.0.testFilePath) == Success(v.value.test)
  {
    var vc := ValidationConfigFor(pc);
    assert StartDataValidation(pc, inputs, ingestion, fs)
        == DataValidation.InitiateDataValidation(vc, inputs.schema, ingestion, fs, inputs.lib.ksPValue);
  }

  /** Transformation reads the two files the validation artifact names: the
      stored transformer and encoder are the ones fitted on that training
      file, and the two stored arrays are both files encoded with them. */
  lemma TransformationWritesEncodedSplits(pc: TrainingPipelineConfig, inputs: Inputs,
                                          validation: DataValidationArtifact, fs: FileSystem)
    requires Sound(fs)
    requires StartDataTransformation(pc, inputs, validation, fs).Success?
    ensures var r := StartDataTransformation(pc, inputs, validation, fs);
      && ReadCsv(fs, validation.trainFilePath).Success? && ReadCsv(fs, validation.testFilePath).Success?
      && var train := ReadCsv(fs, validation.trainFilePath).value;
      && var test := ReadCsv(fs, validation.testFilePath).value;
      && var target := inputs.schema.targetColumn;
      && DataTransformation.FitOnTrain(target, train, inputs.lib).Success?
      && var (p, enc) := DataTransformation.FitOnTrain(target, train, inputs.lib).value;
      && LoadTransformer(r.value.1, r.value.0.transformerObjectPath) == Success(p)
      && LoadEncoder(r.value.1, r.value.0.targetEncoderPath) == Success(enc)
      && LoadArray(r.value.1, r.value.0.transformedTrainPath) == DataTransformation.EncodeSplit(p, enc, train, target, inputs.lib)
      && LoadArray(r.value.1, r.value.0.transformedTestPath) == DataTransformation.EncodeSplit(p, enc, test, target, inputs.lib)
  {
    var tc := TransformationConfigFor(pc);
    assert StartDataTransformation(pc, inputs, validation, fs)
        == DataTransformation.InitiateDataTransformation(tc, inputs.schema, validation, fs, inputs.lib);
  }

  /** `start`: the three stages in order, each handed the previous stage's
      artifact and the files as that stage left them. The first stage that
      raises ends the run with that stage named, and the files are those the
      completed stages wrote. `start` itself returns `None`; what a run
      yields is the files it leaves and the last artifact. */
  function Start(pc: TrainingPipelineConfig, inputs: Inputs, fs: FileSystem): (run: Run)
    requires Sound(fs) && ValidInputs(inputs)
    ensures Sound(run.fs)
    ensures ConfinedTo(fs, run.fs, pc.artifactDir)
    ensures run.outcome.Success? ==> var tc := TransformationConfigFor(pc);
      run.outcome.value == DataTransformationArtifact(
        tc.transformerObjPath, tc.transformedTrainPath, tc.transformedTestPath, tc.targetEncoderObjPath)
    ensures var ingested := StartDataIngestion(pc, inputs, fs);
      && (ingested.Failure? ==> run == Run(fs, Failure(StageFailed(IngestionStage, ingested.error))))
      && (ingested.Success? ==> run == RunAfterIngestion(pc, inputs, ingested.value.0, ingested.value.1))
  {
    var ingested := StartDataIngestion(pc, inputs, fs);
    if ingested.Failure? then Run(fs, Failure(StageFailed(IngestionStage, ingested.error)))
    else
      var run := RunAfterIngestion(pc, inputs, ingested.value.0, ingested.value.1);
      ConfinedTrans(fs, ingested.value.1, run.fs, pc.artifactDir);
      run
  }

  /** The rest of `start` once ingestion has returned its artifact:
      validation on the files ingestion left, then the rest of the run on
      the files validation left. A validation failure keeps the files as
      ingestion left them. */
  function RunAfterIngestion(pc: TrainingPipelineConfig, inputs: Inputs, ingestion: DataIngestionArtifact,
                             fs: FileSystem): (run: Run)
    requires Sound(fs)
    ensures Sound(run.fs)
    ensures ConfinedTo(fs, run.fs, pc.artifactDir)
    ensures run.outcome.Success? ==> var tc := TransformationConfigFor(pc);
      run.outcome.value == DataTransformationArtifact(
        tc.transformerObjPath, tc.transformedTrainPath, tc.transformedTestPath, tc.targetEncoderObjPath)
    ensures var validated := StartDataValidation(pc, inputs, ingestion, fs);
      && (validated.Failure? ==> run == Run(fs, Failure(StageFailed(ValidationStage, validated.error))))
      && (validated.Success? ==> run == RunAfterValidation(pc, inputs, validated.value.0, validated.value.1))
  {
    var validated := StartDataValidation(pc, inputs, ingestion, fs);
    if validated.Failure? then Run(fs, Failure(StageFailed(ValidationStage, validated.error)))
    else
      var run := RunAfterValidation(pc, inputs, validated.value.0, validated.value.1);
      ConfinedTrans(fs, validated.value.1, run.fs, pc.artifactDir);
      run
  }

  /** The last step of `start` once validation has returned its artifact:
      transformation on the files validation left. A failure keeps those
      files as they were. */
  function RunAfterValidation(pc: TrainingPipelineConfig, inputs: Inputs, validation: DataValidationArtifact,
                              fs: FileSystem): (run: Run)
    requires Sound(fs)
    ensures Sound(run.fs)
    ensures ConfinedTo(fs, run.fs, pc.artifactDir)
    ensures run.outcome.Success? ==> var tc := TransformationConfigFor(pc);
      run.outcome.value == DataTransformationArtifact(
        tc.transformerObjPath, tc.transformedTrainPath, tc.transformedTestPath, tc.targetEncoderObjPath)
    ensures run.outcome.Failure? ==> run.outcome.error.stage == TransformationStage && run.fs == fs
    ensures var transformed := StartDataTransformation(pc, inputs, validation, fs);
      && (transformed.Failure? ==> run == Run(fs, Failure(StageFailed(TransformationStage, transformed.error))))
      && (transformed.Success? ==> run == Run(transformed.value.1, Success(transformed.value.0)))
  {
    var transformed := StartDataTransformation(pc, inputs, validation, fs);
    if transformed.Failure? then Run(fs, Failure(StageFailed(TransformationStage, transformed.error)))
    else Run(transformed.value.1, Success(transformed.value.0))
  }

  /** A run stops in ingestion exactly when the collection has fewer than
      two rows, and then it leaves the file system as it found it. */
  lemma RunStopsInIngestionIff(pc: TrainingPipelineConfig, inputs: Inputs, fs: FileSystem)
    requires Sound(fs) && ValidInputs(inputs)
    ensures var run := Start(pc, inputs, fs);
      run.outcome.Failure? && run.outcome.error.stage == IngestionStage <==> inputs.collection.rows < 2
    ensures inputs.collection.rows < 2 ==>
      Start(pc, inputs, fs) == Run(fs, Failure(StageFailed(IngestionStage, EmptyTrainSplit(inputs.collection.rows))))
  {
  }

  /** A run that stops in validation keeps what ingestion wrote: both
      halves of the split can still be read back. */
  lemma FailedValidationKeepsSplit(pc: TrainingPipelineConfig, inputs: Inputs, fs: FileSystem)
    requires Sound(fs) && ValidInputs(inputs)
    requires var run := Start(pc, inputs, fs);
      run.outcome.Failure? && run.outcome.error.stage == ValidationStage
    ensures IngestedSplit(pc, inputs).Success?
    ensures var ic := IngestionConfigFor(pc);
      var run := Start(pc, inputs, fs);
      && ReadCsv(run.fs, ic.trainFilePath) == Success(IngestedSplit(pc, inputs).value.0)
      && ReadCsv(run.fs, ic.testFilePath) == Success(IngestedSplit(pc, inputs).value.1)
  {
    IngestionWritesSplit(pc, inputs, fs);
  }

  /** End to end: a successful run stores the transformer and encoder
      fitted on the validated training half of the split collection, and
      the arrays of both validated halves encoded with them. */
  lemma StagesReadWhatThePreviousWrote(pc: TrainingPipelineConfig, inputs: Inputs, fs: FileSystem)
    requires Sound(fs) && ValidInputs(inputs)
    requires Start(pc, inputs, fs).outcome.Success?
    ensures IngestedSplit(pc, inputs).Success?
    ensures var split := IngestedSplit(pc, inputs).value;
      DataValidation.Validate(inputs.schema, DefaultMissingThreshold, split.0, split.1, inputs.lib.ksPValue).Success?
    ensures var split := IngestedSplit(pc, inputs).value;
      var v := DataValidation.Validate(inputs.schema, DefaultMissingThreshold, split.0, split.1, inputs.lib.ksPValue).value;
      var target := inputs.schema.targetColumn;
      && DataTransformation.FitOnTrain(target, v.train, inputs.lib).Success?
      && var (p, enc) := DataTransformation.FitOnTrain(target, v.train, inputs.lib).value;
      && var tc := TransformationConfigFor(pc);
      && var run := Start(pc, inputs, fs);
      && LoadTransformer(run.fs, tc.transformerObjPath) == Success(p)
      && LoadEncoder(run.fs, tc.targetEncoderObjPath) == Success(enc)
      && LoadArray(run.fs, tc.transformedTrainPath) == DataTransformation.EncodeSplit(p, enc, v.train, target, inputs.lib)
      && LoadArray(run.fs, tc.transformedTestPath) == DataTransformation.EncodeSplit(p, enc, v.test, target, inputs.lib)
  {
    var ingested := StartDataIngestion(pc, inputs, fs).value;
    IngestionWritesSplit(pc, inputs, fs);
    ValidationWritesCleanedSplits(pc, inputs, ingested.0, ingested.1);
    var validated := StartDataValidation(pc, inputs, ingested.0, ingested.1).value;
    TransformationWritesEncodedSplits(pc, inputs, validated.0, validated.1);
  }
}
