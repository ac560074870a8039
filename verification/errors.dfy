/** Every exception the modelled code raises, as a value. In the source each
    of these is wrapped in a `SensorException` that adds the file and line of
    the wrapping call; that location information is not modelled. */
module Errors {
  import opened Tables

  datatype Split = TrainSplit | TestSplit

  /** The three objects of a registry bundle. */
  datatype BundlePart = ModelPart | TransformerPart | TargetEncoderPart

  datatype Error =
    // model registry
    | MalformedVersion(name: string)          // int(name) raised ValueError
    | BundleNotAvailable(part: BundlePart)    // "Model / Transformer / Target encoder is not available"
    // files
    | FileNotFound(path: string)
    | UnexpectedContent(path: string)         // the file holds something other than what is loaded
    // frames
    | ColumnsNotFound(names: seq<string>)     // pandas KeyError
    // data ingestion (train_test_split)
    | InvalidTestSize(testSize: real)         // a float test_size outside the open interval (0, 1)
    | EmptyTrainSplit(samples: nat)           // n_samples - ceil(test_size * n_samples) == 0
    // data validation
    | NoColumnsLeft(split: Split)
    | RequiredColumnsMissing(split: Split)
    | ColumnCountMismatch(trainColumns: nat, testColumns: nat)
    | EmptySample(column: string)             // ks_2samp on a column with no values
    // data transformation
    | UnorderableLabels                       // missing or mixed-type target values
    | UnseenLabel(unseen: Value)              // LabelEncoder.transform on a label not seen in fit
    | UnknownCode                             // LabelEncoder.inverse_transform on a code that is no class
    | NonNumericFeature(column: string)
    | EmptyArray(samples: nat, features: nat) // check_array on an array with no rows or no columns
    | FeatureNamesMismatch(fitted: seq<string>, given: seq<string>)
    | LengthMismatch(rows: nat, targets: nat) // np.c_ on arrays of different length
    // f1_score with the default average='binary'
    | InconsistentLengths(labels: nat, predictions: nat)
    | NotBinaryTarget                         // labels not whole, more than two of them, or two without 1
    // model trainer
    | NoTargetColumn                          // arr[:, -1] on an array without columns
    | Underfitting(expectedScore: real, testScore: real)
    | Overfitting(difference: real, threshold: real)
    // model evaluation
    | NotBetterThanPrevious(difference: real, threshold: real)
}
