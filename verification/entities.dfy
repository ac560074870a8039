/** Stage configurations and the artifacts the stages hand to each other.
    Configurations are the path layout of one run, rooted at the run's
    artifact directory; artifacts are plain records of output paths. */
module Entities {
  import opened Wrappers
  import opened Text

  const TrainFileName: string := "train.csv"
  const TestFileName: string := "test.csv"
  const TransformerObjectFileName: string := "transformer.pkl"
  const TargetEncoderObjectFileName: string := "target_encoder.pkl"
  /** `TRAIN_FILE_NAME.replace("csv", "npz")` and the same for test. */
  const TransformedTrainFileName: string := "train.npz"
  const TransformedTestFileName: string := "test.npz"
  const SchemaFilePath: string := "schema.yaml"
  const ReportFileName: string := "report.yaml"
  const DefaultMissingThreshold: real := 0.7

  /** The schema file: columns that must be present, columns always
      dropped, and the target column. */
  datatype Schema = Schema(requiredColumns: seq<string>, dropColumns: seq<string>, targetColumn: string)

  /** The run root `artifact/<timestamp>`; the timestamp comes from the clock
      and is a parameter here. */
  datatype TrainingPipelineConfig = TrainingPipelineConfig(artifactDir: string)

  datatype DataIngestionConfig = DataIngestionConfig(
    datasetDir: string,
    trainFilePath: string,
    testFilePath: string,
    databaseName: string,
    collectionName: string,
    testSize: real)

  datatype DataValidationConfig = DataValidationConfig(
    validDir: string,
    invalidDir: string,
    validTrainFilePath: string,
    invalidTrainFilePath: string,
    validTestFilePath: string,
    invalidTestFilePath: string,
    reportFileName: string,
    schemaFilePath: string,
    missingThreshold: real)

  datatype DataTransformationConfig = DataTransformationConfig(
    transformationDir: string,
    transformerObjDir: string,
    transformerObjPath: string,
    targetEncoderObjPath: string,
    transformedData: string,
    transformedTrainPath: string,
    transformedTestPath: string,
    schemaFilePath: string)

  /** Not defined in the files modelled: only the fields the trainer reads. */
  datatype ModelTrainerConfig = ModelTrainerConfig(
    modelPath: string,
    expectedScore: real,
    overfittingThreshold: real)

  /** Not defined in the files modelled: only the field the evaluation reads. */
  datatype ModelEvaluationConfig = ModelEvaluationConfig(changeThreshold: real)

  datatype DataIngestionArtifact = DataIngestionArtifact(
    trainFilePath: string,
    testFilePath: string)

  datatype DataValidationArtifact = DataValidationArtifact(
    reportFilePath: string,
    trainFilePath: string,
    testFilePath: string,
    status: bool)

  datatype DataTransformationArtifact = DataTransformationArtifact(
    transformerObjectPath: string,
    transformedTrainPath: string,
    transformedTestPath: string,
    targetEncoderPath: string)

  datatype ModelTrainerArtifact = ModelTrainerArtifact(
    modelFilePath: string,
    f1TrainScore: real,
    f1TestScore: real)

  /** Not defined in the files modelled: the two fields the evaluation sets. */
  datatype ModelEvaluationArtifact = ModelEvaluationArtifact(
    isModelAccepted: bool,
    improvedModelAccuracy: Option<real>)

  function NewTrainingPipelineConfig(timestamp: string): TrainingPipelineConfig {
    TrainingPipelineConfig(Join("artifact", timestamp))
  }

  /** The fixed file names are plain names (no separator) and no two of
      them are equal. */
  lemma FileNamesAreSimple()
    ensures forall n :: n in FixedFileNames() ==> |n| > 0 && Sep !in n
    ensures TrainFileName != TestFileName
    ensures TrainFileName != ReportFileName && TestFileName != ReportFileName
    ensures TransformedTrainFileName != TransformedTestFileName
    ensures TransformerObjectFileName != TargetEncoderObjectFileName
  {
    assert TrainFileName[1] != TestFileName[1];
    assert TrainFileName[|TrainFileName| - 1] != ReportFileName[|ReportFileName| - 1];
    assert TestFileName[|TestFileName| - 1] != ReportFileName[|ReportFileName| - 1];
    assert TransformedTrainFileName[1] != TransformedTestFileName[1];
    assert TransformerObjectFileName[1] != TargetEncoderObjectFileName[1];
  }

  function TransformationFileNames(): set<string> {
    {TransformerObjectFileName, TargetEncoderObjectFileName, TransformedTrainFileName, TransformedTestFileName}
  }

  function FixedFileNames(): set<string> {
    {TrainFileName, TestFileName, ReportFileName} + TransformationFileNames()
  }

  /** `DataIngestionConfig`: `train.csv` and `test.csv` side by side in
      `<root>/data_ingestion/dataset`, and a test share of 0.2. */
  function IngestionConfigFor(pc: TrainingPipelineConfig): (ic: DataIngestionConfig)
    ensures ic.testSize == 0.2
    ensures Basename(ic.trainFilePath) == TrainFileName && Basename(ic.testFilePath) == TestFileName
    ensures ic.datasetDir <= ic.trainFilePath && ic.datasetDir <= ic.testFilePath
    ensures ic.trainFilePath != ic.testFilePath
  {
    FileNamesAreSimple();
    var ingestionDir := Join(pc.artifactDir, "data_ingestion");
    var datasetDir := Join(ingestionDir, "dataset");
    BasenameOfJoin(datasetDir, TrainFileName);
    BasenameOfJoin(datasetDir, TestFileName);
    DataIngestionConfig(
      datasetDir,
      Join(datasetDir, TrainFileName),
      Join(datasetDir, TestFileName),
      "sensor",
      "sensor_readings",
      0.2)
  }

  /** `DataValidationConfig`: the cleaned splits `train.csv` and `test.csv`
      in `<root>/data_validation/valid`, the report `report.yaml` in
      `<root>/data_validation/report`, and a missing-value threshold of
      0.7. The three files the stage writes are three different files. */
  function ValidationConfigFor(pc: TrainingPipelineConfig): (vc: DataValidationConfig)
    ensures vc.missingThreshold == DefaultMissingThreshold && vc.schemaFilePath == SchemaFilePath
    ensures Basename(vc.validTrainFilePath) == TrainFileName && Basename(vc.validTestFilePath) == TestFileName
    ensures Basename(vc.invalidTrainFilePath) == TrainFileName && Basename(vc.invalidTestFilePath) == TestFileName
    ensures Basename(vc.reportFileName) == ReportFileName
    ensures vc.validDir <= vc.validTrainFilePath && vc.validDir <= vc.validTestFilePath
    ensures vc.validTrainFilePath != vc.validTestFilePath
    ensures vc.reportFileName != vc.validTrainFilePath && vc.reportFileName != vc.validTestFilePath
  {
    FileNamesAreSimple();
    var validationDir := Join(pc.artifactDir, "data_validation");
    var validDir := Join(validationDir, "valid");
    var invalidDir := Join(validationDir, "invalid");
    var reportDir := Join(validationDir, "report");
    BasenameOfJoin(validDir, TrainFileName);
    BasenameOfJoin(validDir, TestFileName);
    BasenameOfJoin(invalidDir, TrainFileName);
    BasenameOfJoin(invalidDir, TestFileName);
    BasenameOfJoin(reportDir, ReportFileName);
    DataValidationConfig(
      validDir,
      invalidDir,
      Join(validDir, TrainFileName),
      Join(invalidDir, TrainFileName),
      Join(validDir, TestFileName),
      Join(invalidDir, TestFileName),
      Join(reportDir, ReportFileName),
      SchemaFilePath,
      DefaultMissingThreshold)
  }

  /** `DataTransformationConfig`: the fitted transformer in
      `<root>/data_transformation/transformer`, the target encoder in
      `.../target_encoder`, and the two arrays `train.npz` and `test.npz` in
      `.../transformed_data`. No two of the four outputs share a path. */
  function TransformationConfigFor(pc: TrainingPipelineConfig): (tc: DataTransformationConfig)
    ensures tc.schemaFilePath == SchemaFilePath
    ensures Basename(tc.transformerObjPath) == TransformerObjectFileName
    ensures Basename(tc.targetEncoderObjPath) == TargetEncoderObjectFileName
    ensures Basename(tc.transformedTrainPath) == TransformedTrainFileName
    ensures Basename(tc.transformedTestPath) == TransformedTestFileName
    ensures tc.transformerObjDir <= tc.transformerObjPath
    ensures tc.transformedData <= tc.transformedTrainPath && tc.transformedData <= tc.transformedTestPath
    ensures && tc.transformedTrainPath != tc.transformedTestPath
            && tc.transformedTrainPath != tc.transformerObjPath
            && tc.transformedTrainPath != tc.targetEncoderObjPath
            && tc.transformedTestPath != tc.transformerObjPath
            && tc.transformedTestPath != tc.targetEncoderObjPath
            && tc.transformerObjPath != tc.targetEncoderObjPath
  {
    FileNamesAreSimple();
    var transformationDir := Join(pc.artifactDir, "data_transformation");
    var transformerObjDir := Join(transformationDir, "transformer");
    var targetEncoderDir := Join(transformationDir, "target_encoder");
    var transformedData := Join(transformationDir, "transformed_data");
    BasenameOfJoin(transformerObjDir, TransformerObjectFileName);
    BasenameOfJoin(targetEncoderDir, TargetEncoderObjectFileName);
    BasenameOfJoin(transformedData, TransformedTrainFileName);
    BasenameOfJoin(transformedData, TransformedTestFileName);
    DataTransformationConfig(
      transformationDir,
      transformerObjDir,
      Join(transformerObjDir, TransformerObjectFileName),
      Join(targetEncoderDir, TargetEncoderObjectFileName),
      transformedData,
      Join(transformedData, TransformedTrainFileName),
      Join(transformedData, TransformedTestFileName),
      SchemaFilePath)
  }

  /** The prefix every path inside directory `root` starts with: `root`
      followed by a separator, unless `root` is empty or already ends in one. */
  function DirPrefix(root: string): (d: string)
    ensures root <= d && |d| <= |root| + 1
    ensures |d| > 0 ==> d[|d| - 1] == Sep
  {
    if |root| == 0 || root[|root| - 1] == Sep then root else root + [Sep]
  }

  /** `p` is `root` itself or lies inside directory `root`: the comparison
      is by whole path components, so `artifact/run10` is not inside
      `artifact/run1`. */
  predicate Under(p: string, root: string) {
    p == root || DirPrefix(root) <= p
  }

  /** A sibling whose name merely extends the root's last component is not
      inside the root, whatever follows; a path continuing after a separator
      is. */
  lemma SiblingIsNotUnder(root: string, c: char, rest: string)
    requires |root| > 0 && root[|root| - 1] != Sep
    ensures c != Sep ==> !Under(root + [c] + rest, root)
    ensures c == Sep ==> Under(root + [c] + rest, root)
  {
  }

  /** Joining a relative name onto a path inside `root` stays inside `root`. */
  lemma JoinStaysUnder(p: string, root: string, name: string)
    requires Under(p, root) && !Absolute(name)
    ensures Under(Join(p, name), root)
  {
    var q := Join(p, name);
    var d := DirPrefix(root);
    if p == root {
      assert q[..|d|] == d;
    } else {
      assert p[..|d|] == d;
      assert q[..|p|] == p;
      assert q[..|d|] == p[..|d|];
    }
  }

  lemma IngestionPathsUnderRoot(pc: TrainingPipelineConfig)
    ensures var ic := IngestionConfigFor(pc);
      Under(ic.trainFilePath, pc.artifactDir) && Under(ic.testFilePath, pc.artifactDir)
  {
    var root := pc.artifactDir;
    JoinStaysUnder(root, root, "data_ingestion");
    var ingestionDir := Join(root, "data_ingestion");
    JoinStaysUnder(ingestionDir, root, "dataset");
    var datasetDir := Join(ingestionDir, "dataset");
    JoinStaysUnder(datasetDir, root, TrainFileName);
    JoinStaysUnder(datasetDir, root, TestFileName);
  }

  lemma ValidationPathsUnderRoot(pc: TrainingPipelineConfig)
    ensures var vc := ValidationConfigFor(pc);
      && Under(vc.validTrainFilePath, pc.artifactDir)
      && Under(vc.validTestFilePath, pc.artifactDir)
      && Under(vc.reportFileName, pc.artifactDir)
  {
    var root := pc.artifactDir;
    JoinStaysUnder(root, root, "data_validation");
    var validationDir := Join(root, "data_validation");
    JoinStaysUnder(validationDir, root, "valid");
    JoinStaysUnder(validationDir, root, "report");
    JoinStaysUnder(Join(validationDir, "valid"), root, TrainFileName);
    JoinStaysUnder(Join(validationDir, "valid"), root, TestFileName);
    JoinStaysUnder(Join(validationDir, "report"), root, ReportFileName);
  }

  lemma TransformationPathsUnderRoot(pc: TrainingPipelineConfig)
    ensures var tc := TransformationConfigFor(pc);
      && Under(tc.transformerObjPath, pc.artifactDir)
      && Under(tc.targetEncoderObjPath, pc.artifactDir)
      && Under(tc.transformedTrainPath, pc.artifactDir)
      && Under(tc.transformedTestPath, pc.artifactDir)
  {
    var root := pc.artifactDir;
    JoinStaysUnder(root, root, "data_transformation");
    var transformationDir := Join(root, "data_transformation");
    JoinStaysUnder(transformationDir, root, "transformer");
    JoinStaysUnder(transformationDir, root, "target_encoder");
    JoinStaysUnder(transformationDir, root, "transformed_data");
    JoinStaysUnder(Join(transformationDir, "transformer"), root, TransformerObjectFileName);
    JoinStaysUnder(Join(transformationDir, "target_encoder"), root, TargetEncoderObjectFileName);
    JoinStaysUnder(Join(transformationDir, "transformed_data"), root, TransformedTrainFileName);
    JoinStaysUnder(Join(transformationDir, "transformed_data"), root, TransformedTestFileName);
  }

  /** Every file a stage of one run writes lies under that run's root, so the
      three stage configurations built from one pipeline configuration share
      one artifact tree. */
  lemma StageConfigsShareRoot(pc: TrainingPipelineConfig)
    ensures var ic := IngestionConfigFor(pc);
      Under(ic.trainFilePath, pc.artifactDir) && Under(ic.testFilePath, pc.artifactDir)
    ensures var vc := ValidationConfigFor(pc);
      && Under(vc.validTrainFilePath, pc.artifactDir)
      && Under(vc.validTestFilePath, pc.artifactDir)
      && Under(vc.reportFileName, pc.artifactDir)
    ensures var tc := TransformationConfigFor(pc);
      && Under(tc.transformerObjPath, pc.artifactDir)
      && Under(tc.targetEncoderObjPath, pc.artifactDir)
      && Under(tc.transformedTrainPath, pc.artifactDir)
      && Under(tc.transformedTestPath, pc.artifactDir)
  {
    IngestionPathsUnderRoot(pc);
    ValidationPathsUnderRoot(pc);
    TransformationPathsUnderRoot(pc);
  }
}
