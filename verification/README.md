# Sensor fault detection: the training pipeline's decision logic in Dafny

The sensor-fault-detection repository trains a classifier for sensor fault
records. A training run goes through these stages:

1. **Ingestion** exports the readings and splits them into train and test CSV files.
2. **Validation** drops schema-listed and too-sparse columns. It checks the
   required columns and the column counts, then records a drift report.
3. **Transformation** separates the target column. It fits a label encoder
   and an impute-then-scale feature pipeline on the train split only, then
   applies them to both splits. It resamples both splits and stores each as
   one array whose last column is the encoded target.
4. **Training** splits those arrays back into features and target. It fits
   a classifier and gates it on an underfitting and an overfitting
   threshold.
5. **Evaluation** compares the new bundle with the latest bundle of the
   **model registry**. The registry is a directory of integer-named
   versions.

This project models those decisions as pure Dafny functions over immutable
data and proves what they promise.

Data representation:

- A table is a `Frame`: a row count and an ordered list of named columns of
  optional cells. A missing cell is `None`.
- The file system is a map from path to content.
- Each stage returns either its artifact together with the updated file
  system, or the error the Python code would raise.
- The numeric library calls are opaque function parameters collected in a
  `Library` record: the KS test, the robust scaler's statistics,
  resampling, fitting, prediction and the F1 score. The checks that decide
  whether `ks_2samp` and `f1_score` raise are modelled.

Modules, one per file:

| module | file | what it holds |
|---|---|---|
| `Wrappers` | wrappers.dfy | `Option` and `Result` |
| `Text` | text.dfy | `os.path.join`, `basename`, `int()` and `str()` on version names |
| `Tables` | tables.dfy | frames, columns, column selection, the validation report |
| `Errors` | errors.dfy | one constructor per exception the stages raise |
| `LabelEncoding` | label_encoding.dfy | the target encoder (`LabelEncoder`), modelled exactly |
| `FeaturePipeline` | feature_pipeline.dfy | the constant-0 imputer followed by the robust scaler |
| `Learners` | learners.dfy | the classifier, the opaque library calls and the binary F1 checks |
| `Storage` | storage.dfy | files and the loaders (`read_csv`, `load_numpy_array`, `load_object`) |
| `Entities` | entities.dfy | stage configurations, artifacts and the run's path layout |
| `ModelResolver` | model_resolver.dfy | the registry: latest version, latest and save paths |
| `DataValidation` | data_validation.dfy | the validation stage |
| `DataTransformation` | data_transformation.dfy | the transformation stage |
| `ModelTrainer` | model_trainer.dfy | the training stage |
| `ModelEvaluation` | model_evaluation.dfy | the evaluation stage |
| `TrainingPipeline` | training_pipeline.dfy | ingestion and `TrainingPipeline.start` |

Four behaviours of the code are easy to misread; the model follows the
code in each:

- `drop_columns` calls `df.drop` with pandas' default `errors='raise'`. A
  schema drop column that is absent is therefore a `KeyError`, not a
  column silently skipped. `DataValidation.DropColumns` fails with
  `ColumnsNotFound` naming every absent column.
- `data_drift` looks up every train column by name in the test frame. Equal
  column counts do not guarantee equal names, so a train column absent from
  the test split raises `KeyError`. `DataValidation.DriftEntries` models that
  failure.
- Every `f1_score` call uses the default `average='binary'`. It raises
  `ValueError` when the labels and predictions together are not a binary
  target: three distinct classes, a non-whole value, or two classes without
  1. So the pipeline can only score a two-class problem.
  `Learners.F1Score` models these checks; `ModelTrainer.MulticlassTargetFailsTraining`
  shows that a three-class target can never be trained.
- The test split is resampled exactly as the train split is
  (data_transformation.py:86), so the stored test array need not have the
  test split's rows. The model resamples both splits.

## Model

| member | source | states |
|---|---|---|
| Text.ParseShowInt | sensor/ml/model_resolver.py:26-28 | The decimal name a version is written under parses back to that version. |
| Text.Join | sensor/entity/config_entity.py:15 | An absolute second part replaces the first. Otherwise the result starts with the first part and is at most one separator longer than the two parts together. |
| Text.JoinEndsWithPart | sensor/entity/config_entity.py:15 | A relative second part ends the joined path. |
| Text.Basename | sensor/ml/model_resolver.py:64 | The base name contains no separator and is no longer than the path. |
| Text.BasenameIsLastComponent | sensor/ml/model_resolver.py:64 | The base name ends the path, and a separator comes right before it whenever it is not the whole path. |
| Text.ParseInt | sensor/ml/model_resolver.py:26 | Parsing succeeds iff the name is an optional `+` or `-` followed by at least one ASCII digit. A `-` gives a value at most 0 and anything else a value at least 0. |
| Text.ShowInt | sensor/ml/model_resolver.py:28 | The decimal name of a number is a numeral without a separator or a `+`. It starts with `-` iff the number is negative. |
| ModelResolver.LatestVersion | sensor/ml/model_resolver.py:21-30 | An empty registry has no latest version. The lookup fails exactly when some entry name is not an integer, and the error names an entry. Otherwise the version is the unique maximum: every entry parses to at most it and some entry parses to it. |
| ModelResolver.ParseVersions | sensor/ml/model_resolver.py:26 | `map(int, ...)` parses every entry in listing order. A failure names the first entry that does not parse, and all entries before it parse. |
| ModelResolver.LatestDirPath | sensor/ml/model_resolver.py:21-30 | None iff the registry is empty. Otherwise it is the registry joined with the decimal name of the latest version. It fails exactly when the version lookup fails. |
| ModelResolver.LatestBundlePath | sensor/ml/model_resolver.py:32-57 | Each latest model, transformer or target-encoder path fails with "not available" exactly when the registry is empty. Otherwise it is `<latest dir>/<sub-directory>/<file>`. The only other failure is a malformed entry. |
| ModelResolver.LatestBundleShareVersionDir | sensor/ml/model_resolver.py:32-57 | The three latest paths all lie in the latest version's directory and differ only in sub-directory and file name. |
| ModelResolver.ReadBackVersion | sensor/ml/model_resolver.py:61-65 | `int(basename(join(registry, str(v))))` gives back `v`, so the save slot is computed from the true latest version. |
| ModelResolver.NextVersionDir | sensor/ml/model_resolver.py:64-65 | Reading the version back from a directory's base name succeeds iff that name is an integer numeral; otherwise the error names the base name. |
| ModelResolver.NextOfVersionDir | sensor/ml/model_resolver.py:64-65 | A directory whose base name reads back as version v is followed by the directory named after v + 1. |
| ModelResolver.LatestSaveDirPath | sensor/ml/model_resolver.py:59-67 | The save directory is `<registry>/0` for an empty registry and `<registry>/<latest+1>` otherwise. It fails exactly when the latest lookup fails. |
| ModelResolver.SaveBundlePath | sensor/ml/model_resolver.py:69-88 | The save paths use the save directory with the same sub-directory and file layout as the latest paths. They never fail on an empty registry. |
| ModelResolver.SaveSlotIsFresh | sensor/ml/model_resolver.py:59-65 | The save slot's version is strictly greater than every existing version, so its name is not an existing entry and its directory is not an existing version directory. |
| ModelResolver.SavedSlotBecomesLatest | sensor/ml/model_resolver.py:21-65 | Once the save slot's name is added to the registry, the latest directory is the former save directory, and each latest bundle path is the former save path. Versions only grow. |
| ModelResolver.DefaultResolver | sensor/ml/model_resolver.py:8-17 | The default registry is `datadir/saved_models` and the model file name is kept. The three sub-directory names are non-empty, contain no separator and differ from each other. |
| DataValidation.KeptIffWithinThreshold | sensor/components/data_validation.py:29-35 | A column is kept exactly when its null count is at most threshold times the row count. A column at exactly the threshold is kept, and a zero-row frame keeps every column (0/0 is NaN and NaN > t is false). |
| DataValidation.DropMissingValuesColumns | sensor/components/data_validation.py:27-39 | The report gets the key even when nothing is dropped, and the other keys are unchanged. The recorded names are, in frame order, exactly the columns over the threshold. The result is None iff every column is over the threshold. Otherwise it has exactly the surviving columns in their original order and the same row count. |
| DataValidation.IsRequiredColumnExists | sensor/components/data_validation.py:44-58 | True iff every required column is present, and then the report is untouched. Otherwise the report records under the key exactly the missing required names, in schema order, and the answer is false. |
| DataValidation.DropColumns | sensor/components/data_validation.py:91-97 | Success iff every listed name is a column. The failure names exactly the absent ones. On success exactly the unlisted columns remain, in order, with the same rows. |
| DataValidation.Verdict | sensor/components/data_validation.py:71-83 | A column is "same distribution" iff its p-value is strictly greater than 0.05. The p-value is kept as reported. |
| DataValidation.DriftEntries | sensor/components/data_validation.py:63-86 | Success iff every train column has a test column of the same name and both columns have a cell. A failure names a column that is absent from the test split or an empty sample. On success there is one entry per train column, in train order, comparing it with the test column of the same name. |
| DataValidation.DriftNeedsRows | sensor/components/data_validation.py:63-86 | Between two well-formed frames where the first has a column, the drift table can be built iff every column of the first is in the second and both frames have a row. |
| DataValidation.DataDrift | sensor/components/data_validation.py:63-86 | The drift table is recorded under its key and nothing else in the report changes. The table has one verdict per base column. |
| DataValidation.SchemaDrops | sensor/components/data_validation.py:107-108 | Schema drops run on train before test: an absent drop column in train is the failure reported. On success each split keeps exactly its unlisted columns and its rows. |
| DataValidation.MissingDrops | sensor/components/data_validation.py:110-119 | The missing-value drops run on both splits. If every train column is too sparse, the result is a train failure even when the test split is empty too. Success iff each split keeps some column. Each split then keeps exactly its columns at or under the threshold, in order, with its rows. The report holds exactly the two keys. Each key lists, in frame order, exactly the names of that split's columns over the threshold. |
| DataValidation.RequiredChecks | sensor/components/data_validation.py:121-129 | A required column missing from train fails as train. Success iff both splits hold every required column, and the report is then unchanged. |
| DataValidation.ColumnCountCheck | sensor/components/data_validation.py:131-132 | Success iff the two splits have equal column counts. The failure carries both counts. |
| DataValidation.Validate | sensor/components/data_validation.py:107-134 | A successful validation keeps the rows. Each split's columns are exactly its survivors, in order: the columns that are neither schema-dropped nor too sparse. Every required column is in both splits. Both splits have the same non-zero column count. The report has exactly the two missing-value keys and the drift key, with one verdict per cleaned train column, "same distribution" iff its p-value exceeds 0.05. `ValidateReport` states the lists' and the p-values' contents. |
| DataValidation.SchemaDropOnTrainComesFirst | sensor/components/data_validation.py:107-108 | A drop column absent from train fails validation with the train drop error, whatever the test split holds. |
| DataValidation.EmptyTrainBeforeEmptyTest | sensor/components/data_validation.py:113-119 | When no train column survives both drops, validation fails naming the train split. |
| DataValidation.RequiredOnTrainBeforeTest | sensor/components/data_validation.py:121-129 | A required column with no surviving train column fails validation as a train failure. This comes before the test split's required check, the count check and drift. |
| DataValidation.ColumnCountBeforeDrift | sensor/components/data_validation.py:131-134 | When cleaning succeeds and the required columns survive, unequal survivor counts fail validation with exactly those two counts. Drift is never reached. |
| DataValidation.InitiateDataValidation | sensor/components/data_validation.py:102-150 | On success the artifact has the configured paths and status true, and all checks passed on the two ingested files. Exactly the report and the two cleaned splits are written, and every other file is unchanged. A failure returns no file system, so nothing is persisted. |
| DataValidation.Survivors | sensor/components/data_validation.py:107-119 | The survivors of a frame are exactly its columns that are not schema-dropped and not too sparse, in their original order. |
| DataValidation.CleanedAreSurvivors | sensor/components/data_validation.py:107-119 | Dropping the schema columns and then the sparse columns leaves exactly the survivors, whatever order the two filters are described in. |
| DataValidation.Clean | sensor/components/data_validation.py:107-119 | Both drops on both splits succeed iff every schema drop column is in both splits and each split has a survivor. The result is then exactly the survivors of each split, with its rows. The report holds exactly the two missing-value keys; each lists, in frame order, exactly the too-sparse columns of that split after the schema drops. |
| DataValidation.ValidateReport | sensor/components/data_validation.py:107-134 | After a successful validation, each missing-value key lists, in frame order, exactly the too-sparse columns of that split after the schema drops. The drift key holds one entry per cleaned train column, in order, whose p-value is the KS test of that column against the cleaned test column of the same name. |
| DataValidation.ValidateSucceedsIff | sensor/components/data_validation.py:107-134 | Validation succeeds iff all of these hold: every drop column is in both splits; both splits keep a survivor; every required column survives in both; the survivor counts are equal; every train survivor's name is a test survivor's name (the drift lookup); and both splits have a row (`ks_2samp` rejects an empty sample). |
| FeaturePipeline.ImputeColumn | sensor/components/data_transformation.py:25-35 | Imputation replaces every missing cell with the constant 0 and keeps every number. A text cell fails when the scaler converts the imputed values to floats. |
| FeaturePipeline.Fit | sensor/components/data_transformation.py:74-75 | Fitting succeeds iff every feature is numeric and the frame has at least one row and one column; otherwise the error is an empty array. The pipeline remembers exactly the fitted frame's column names. Each column's centre and non-zero scale come from the statistics of its 0-imputed values. |
| FeaturePipeline.Transform | sensor/components/data_transformation.py:76-77 | A frame is accepted iff it has exactly the fitted names in the fitted order, is numeric and has a row. A name mismatch is a feature-names error. Each output cell is the imputed value, centred and scaled by its column's fitted statistics. |
| FeaturePipeline.FitThenTransform | sensor/components/data_transformation.py:75-76 | A pipeline fitted on a frame transforms that same frame without failing, one row per input row. |
| FeaturePipeline.MissingCellIsFilledWithZero | sensor/components/data_transformation.py:27-34 | A missing cell transforms exactly as the number 0 does: imputation is by the constant 0, never by a statistic. |
| LabelEncoding.Fit | sensor/components/data_transformation.py:68-69 | Fitting succeeds iff the target is present throughout and of one kind. The classes are exactly the labels seen, strictly sorted. |
| LabelEncoding.Transform | sensor/components/data_transformation.py:70-71 | Encoding succeeds iff every label is a class. Each code is the position of its own label among the classes. |
| LabelEncoding.InverseTransform | sensor/components/model_evaluation.py:65 | Decoding succeeds iff every code is a class position, and maps each code to its class. |
| LabelEncoding.FittedLabelsEncode | sensor/components/data_transformation.py:69-70 | Every label of the column the encoder was fitted on can be encoded. |
| LabelEncoding.EncodeDecodeRoundTrip | sensor/components/data_transformation.py:70-71 | Decoding the codes of a column gives back its labels. |
| LabelEncoding.CodesInjective | sensor/components/data_transformation.py:70-71 | Two labels get the same code iff they are equal. |
| LabelEncoding.BelowIsStrictTotalOrder | sensor/components/data_transformation.py:69 | The order the classes are sorted by is irreflexive, transitive and total. |
| DataTransformation.SeparateTarget | sensor/components/data_transformation.py:62-65 | Separation succeeds iff the target column exists, and otherwise fails naming it. The features are exactly the other columns, in order, with the same rows. The target is that column's cells. |
| DataTransformation.Stack | sensor/components/data_transformation.py:90-91 | Each output row is the feature row followed by its target as the last element. It fails on different lengths. |
| DataTransformation.TransformSplits | sensor/components/data_transformation.py:54-91 | On success both splits have the target. The encoder's classes are exactly the train labels, strictly sorted, and every test label is one of them. The encoder and the pipeline are exactly those fitted on the train split alone, and the features are exactly the non-target train columns. The two arrays are exactly the train and the test split encoded by that train-fitted pair. |
| DataTransformation.UnseenTestLabelFails | sensor/components/data_transformation.py:69-71 | A test label the train split never shows makes the stage fail: the encoder is never refitted on test. |
| DataTransformation.InitiateDataTransformation | sensor/components/data_transformation.py:52-110 | On success the artifact paths are the configured paths verbatim, and both validated files were CSV. Exactly the four outputs are written and every other file is unchanged. With distinct output paths, the stored transformer and encoder are the pair fitted on the validated train file, and the two stored arrays are the two validated splits encoded by that pair. |
| DataTransformation.EncodeSplit | sensor/components/data_transformation.py:62-91 | A split without the target fails. On success every label is a class of the train-fitted encoder, the features transform, and the stored array is the resampled features row by row, each followed by its resampled code as the last element. |
| DataTransformation.UnresampledRowsKeepTheirLabels | sensor/components/data_transformation.py:62-91 | When resampling leaves the data unchanged, the array has one row per split row. Each row is the scaled feature values followed by the code c whose class is that row's own label. |
| DataTransformation.WrittenReadsBack | sensor/components/data_transformation.py:94-108 | With four distinct output paths, each path reads back what was saved there: the two arrays, the fitted pipeline and the fitted encoder. |
| Learners.F1Score | sensor/components/model_trainer.py:44-50 | The score succeeds iff the labels and predictions have equal lengths and together form a binary target: whole values, at most two distinct ones, and 1 among them when there are two. Unequal lengths are reported first, with both lengths. The value is then the library's F1. |
| Learners.ThreeClassesNeverScore | sensor/components/model_evaluation.py:64-75 | Labels with three distinct classes make the binary F1 score fail, whatever the predictions are. |
| Learners.ZeroOneLabelsScore | sensor/components/model_trainer.py:44-50 | Labels and predictions of equal length, all 0 or 1, always score: a two-class encoded target is accepted. |
| ModelTrainer.SplitFeaturesTarget | sensor/components/model_trainer.py:38-39 | Every row splits into all but its last element and its last element. It fails iff some row is empty. |
| ModelTrainer.SplitAfterStack | sensor/components/model_trainer.py:38-39 | Splitting an array the transformation stage stacked gives back exactly its features and its targets. |
| ModelTrainer.StackAfterSplit | sensor/components/model_trainer.py:38-39 | Stacking the two parts of a split array rebuilds the array. |
| ModelTrainer.CheckFit | sensor/components/model_trainer.py:55-63 | The gates pass iff the test score reaches the expected score and the absolute train/test difference is at most the threshold; scores at either bound pass. A test score below the expected score reports underfitting even when the model also overfits. |
| ModelTrainer.InitiateModelTrainer | sensor/components/model_trainer.py:31-76 | On success both gates passed and the model is saved at the configured path, and nowhere else. The saved model is the library's fit of exactly the stored train array's features and target. Both F1 scores succeeded, so each split's target and predictions form a binary target, and the artifact's scores are that model's F1 on the train split and on the test split. |
| ModelTrainer.MulticlassTargetFailsTraining | sensor/components/model_trainer.py:42-50 | A stored train array whose target has three distinct classes always fails training, at the train F1 score. |
| ModelEvaluation.SelectByNames | sensor/components/model_evaluation.py:62-63 | Selection succeeds iff every name is a column, and the failure names exactly the absent ones. The result has exactly the named columns, in the order named. |
| ModelEvaluation.LoadBundle | sensor/components/model_evaluation.py:40-48 | A bundle loads iff its transformer, encoder and model files hold those objects. A missing transformer file fails first. |
| ModelEvaluation.ScoreBundle | sensor/components/model_evaluation.py:57-75 | Scoring succeeds iff every label is one of the bundle encoder's classes, every column the bundle's transformer was fitted on is a numeric test column, the test split has a row, and the encoded labels and the model's predictions pass the binary F1 checks. The score is the F1 of the encoded labels against the bundle model's predictions on the transformed fitted columns. |
| ModelEvaluation.AcceptanceRule | sensor/components/model_evaluation.py:79-88 | Accepted iff the current score is at least the previous score plus the threshold, equality included. An acceptance reports the difference; a rejection is an error carrying it. |
| ModelEvaluation.InitiateModelEvaluation | sensor/components/model_evaluation.py:29-91 | An empty registry gives accepted with no improvement, without loading anything. A malformed registry fails. Every returned artifact is accepted. The improvement is None iff the registry is empty, and otherwise at least the threshold. |
| ModelEvaluation.CompareScores | sensor/components/model_evaluation.py:39-75 | Both bundles and the test split are loaded. The two scores are the previous and the current bundle's scores on the same test split and the same target column. |
| ModelEvaluation.ImprovementIsScoreDifference | sensor/components/model_evaluation.py:79-88 | With a non-empty registry, the reported improvement is the current bundle's score minus the latest bundle's score. |
| ModelEvaluation.SameBundleIsNoImprovement | sensor/components/model_evaluation.py:60-82 | A bundle compared with itself is accepted only when the threshold is at most 0, and then reports 0. |
| ModelEvaluation.LowerThresholdStillAccepts | sensor/components/model_evaluation.py:79-82 | Lowering the change threshold never turns an acceptance into a rejection, nor changes what is reported. |
| ModelEvaluation.ScoreDependsOnlyOnFittedColumns | sensor/components/model_evaluation.py:57-75 | Two test frames with the same rows and the same fitted columns get the same score, or the same failure. Columns the bundle was not fitted on have no effect. |
| ModelEvaluation.EvaluationAppliesRule | sensor/components/model_evaluation.py:79-91 | With a non-empty registry whose scores can be computed, evaluation's result is exactly the acceptance rule applied to the previous and the current score. |
| Entities.StageConfigsShareRoot | sensor/entity/config_entity.py:11-60 | Every file the ingestion, validation and transformation configurations of one run name lies under that run's artifact root. |
| Entities.IngestionConfigFor | sensor/entity/config_entity.py:20-31 | The test size is 0.2. The train and test paths are two different files named `train.csv` and `test.csv` in the dataset directory. |
| Entities.ValidationConfigFor | sensor/entity/config_entity.py:35-49 | The threshold is 0.7 and the schema is `schema.yaml`. The valid files are named `train.csv` and `test.csv` in the valid directory, and the invalid ones are named the same. The report is `report.yaml`, distinct from both valid files. |
| Entities.TransformationConfigFor | sensor/entity/config_entity.py:51-63 | The schema is `schema.yaml`. The transformer, the encoder and the two arrays have their configured file names, in their directories. All four paths differ from each other. |
| TrainingPipeline.ReplaceNa | sensor/components/data_ingestion.py:32 | The text `na` becomes a missing cell and every other cell is kept. |
| TrainingPipeline.TrainTestSplit | sensor/components/data_ingestion.py:35 | The frame split succeeds exactly when the position split does, with the same error. The two frames are the rows at the train positions and at the test positions, each with every column. |
| TrainingPipeline.InitiateDataIngestion | sensor/components/data_ingestion.py:23-51 | Ingestion succeeds iff the test size is strictly between 0 and 1 and `ceil(test_size * n) < n`, and a failure is the split's error. On success the artifact is the configured pair of paths, and the written files are the split of the `na`-cleaned collection. |
| TrainingPipeline.StartDataIngestion | sensor/pipeline/training_pipeline.py:18-27 | With the run's 0.2 test size, ingestion succeeds iff the collection has at least two rows; otherwise it fails with an empty train split. On success it writes only under the run's root. |
| TrainingPipeline.StartDataValidation | sensor/pipeline/training_pipeline.py:29-38 | Validation runs on the run's validation configuration and returns its paths. It writes only under the run's root. |
| TrainingPipeline.StartDataTransformation | sensor/pipeline/training_pipeline.py:40-49 | Transformation runs on the run's transformation configuration and returns its paths. It writes only under the run's root. |
| TrainingPipeline.Start | sensor/pipeline/training_pipeline.py:51-57 | If ingestion fails, the run ends naming the ingestion stage and its error, and no file changes. Otherwise the run continues exactly as the rest of the pipeline does on the ingested files. The file system stays sound and nothing outside the run's root changes. A successful run's artifact has the transformation configuration's paths. `start` returns None, so the model's result is the final file system and the stage outcome. |
| TrainingPipeline.StagesReadWhatThePreviousWrote | sensor/pipeline/training_pipeline.py:51-57 | In a successful run, validation cleans exactly the ingested split. The stored transformer and encoder are the pair fitted on the cleaned train split, and the stored arrays are the two cleaned splits encoded by that pair. |
| TrainingPipeline.SplitPositions | sensor/components/data_ingestion.py:35 | Splitting n rows in a shuffled order succeeds iff the test share is strictly between 0 and 1 and `ceil(test_size * n) < n`. A share outside that range is an invalid test size; any other failure is an empty train split. On success both sides are non-empty, together have n positions, and the test side has `ceil(test_size * n)` of them, taken first from the order. |
| TrainingPipeline.SplitPartitionsRows | sensor/components/data_ingestion.py:35 | Neither side of a successful split repeats a row, and each row is in the train side iff it is not in the test side. |
| TrainingPipeline.FifthLeavesTrainRows | sensor/entity/config_entity.py:29 | With the configured test size of 0.2, the split leaves a train row iff there are at least two rows. |
| TrainingPipeline.WriteSplit | sensor/components/data_ingestion.py:41-42 | Writing adds exactly the two configured files and leaves every other file unchanged. The test file reads back the test split. The train file reads back the train split whenever the two paths differ, since the test file is written second. |
| TrainingPipeline.IngestionWritesSplit | sensor/pipeline/training_pipeline.py:18-27 | After a successful ingestion stage, the artifact's train and test paths read back the two halves of the split of the cleaned collection. |
| TrainingPipeline.ValidationWritesCleanedSplits | sensor/pipeline/training_pipeline.py:29-38 | After a successful validation stage, validation was applied to exactly what the ingested files held, and the artifact's paths read back the two cleaned splits. |
| TrainingPipeline.TransformationWritesEncodedSplits | sensor/pipeline/training_pipeline.py:40-49 | After a successful transformation stage, the stored transformer and encoder are the pair fitted on the validated train file. The stored arrays are the two validated splits encoded by that pair. |
| TrainingPipeline.RunAfterIngestion | sensor/pipeline/training_pipeline.py:53-54 | If validation fails, the run ends naming the validation stage and its error, with the ingested files as written. Otherwise it continues with transformation on the validated files. |
| TrainingPipeline.RunAfterValidation | sensor/pipeline/training_pipeline.py:54-55 | If transformation fails, the run ends naming the transformation stage and its error, with the validated files as written. Otherwise the run succeeds with the transformation artifact and its files. |
| TrainingPipeline.RunStopsInIngestionIff | sensor/pipeline/training_pipeline.py:51-57 | A run stops in ingestion iff the collection has fewer than two rows. It then fails with an empty train split and changes no file. |
| TrainingPipeline.FailedValidationKeepsSplit | sensor/pipeline/training_pipeline.py:51-57 | A run that stops in validation leaves the ingestion split on disk: the train and test files read back its two halves. |

## Left out

- Logging, `os.makedirs`, YAML, CSV, numpy and dill serialisation are not
  modelled. What a stage writes under a path is exactly what the next stage
  reads from it.
- `SensorException` is not modelled. It only adds the file and line of the
  wrapping call to each exception; every error is modelled as a plain
  `Error` value.
- The numeric routines are opaque function parameters of `Library`:
  `ks_2samp`, `RobustScaler`'s statistics, `SMOTETomek.fit_resample`,
  `XGBClassifier.predict` and `f1_score`. Floating-point behaviour is not
  modelled and scores are reals.
- The MongoDB export (`export_collection_as_dataframe`) and the order that
  `train_test_split(random_state=42)` shuffles rows into are parameters. The
  order is required to be a permutation of the row positions. The clock's
  timestamp in the run root is a parameter as well.
- The schema file's content is a parameter (`Schema`), and so is the
  registry's listing (the names `os.listdir` returns).
- `MODEL_FILE_NAME`, `ModelTrainerConfig`, `ModelEvaluationConfig` and
  `ModelEvaluationArtifact` are not defined in the modelled files. The file
  name is a field of `Resolver`. The configurations and the artifact carry
  only the fields the stages read or set.
- The logging-only `inverse_transform(y_pred[:5])` calls in evaluation are
  not modelled. In Python they can raise on a predicted code that is no
  class. `LabelEncoding.InverseTransform` models the call itself.
- The model pusher and the batch predictor are not part of this model; no
  code for either is in the modelled files. `TrainingPipeline.start` never
  calls the trainer or the evaluation: `Start` stops after transformation,
  as the code does.
- Text.ParseInt: accepts an optional leading `+` or `-` followed by ASCII
  decimal digits. Python's `int()` also accepts surrounding whitespace,
  underscores between digits and non-ASCII digits; entry names with those
  are treated as malformed.
- LabelEncoding.Fit: a target mixing numbers and text is refused. numpy
  cannot order such an array and raises, so the numbers-before-text order
  never decides anything. NaN targets are treated as missing and refused.
- LabelEncoding.Transform: a missing label reports `UnorderableLabels`. The
  exact pandas/sklearn error message is not modelled.
- The validation report is a map from key to finding, so the order of keys
  in the YAML file is not modelled.
- DataValidation.DriftEntries: the p-value is whatever the opaque KS test
  returns for the two columns. Column dtypes and the dtype coercions
  `ks_2samp` performs are not modelled.
- Concurrent access to the registry is not modelled; the code does no
  locking.
- `app.py`, `pages/explorer.py`, `upload_data.py`, `setup.py` and
  `sensor/config.py` (the UI, the upload script, packaging and the Mongo
  client) are not part of this model.
- TrainingPipeline.SplitPositions: the test share is an exact real, not a
  float. `train_test_split` computes `ceil(test_size * n)` in floating
  point, so a share whose product is inexact can get one more test row in
  Python than in the model: `0.55 * 100` is `55.00000000000001`, whose
  ceiling is 56 where the model gives 55. The configured share of 0.2 is
  not affected: `0.2 * n` in double precision has the same ceiling as the
  exact `n / 5` for every row count a collection realistically has.
- TrainingPipeline.SplitPositions: only a float test share is modelled. An
  integer `test_size` (an absolute row count) is never configured.
- DataTransformation.EncodeSplit: `SMOTETomek.fit_resample` is treated as
  never raising. In Python it can raise, for example on a split with a
  single class; the model always returns the library's resampled data.
- XGBoost's fitting (`XGBClassifier().fit`, `ModelTrainer.train_model`) is
  the opaque `Library.fit`. The trainer's contract says which data it is
  applied to, not what the fitted booster contains.
- DataValidation.DriftEntries: an empty sample is a failure, as in the
  SciPy releases of the code's time (`ks_2samp` raises "Data passed to
  ks_2samp must not be empty"). Newer SciPy releases return NaN instead.
- Learners.F1Score: only the label checks of `f1_score` are modelled. The
  warning and the 0.0 it returns when there is no positive label or
  prediction are inside the opaque `Library.f1`.
