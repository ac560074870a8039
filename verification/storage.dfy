/** The files the stages write and read, as a map from path to content.
    CSV, numpy, dill and YAML serialisation are not modelled: what is
    written under a path is what is read back from it. */
module Storage {
  import opened Wrappers
  import opened Tables
  import opened Errors
  import opened LabelEncoding
  import opened FeaturePipeline
  import opened Learners

  datatype StoredObject =
    | TransformerObject(pipeline: FeaturePipeline)
    | EncoderObject(encoder: LabelEncoder)
    | ModelObject(model: Classifier)

  datatype File =
    | CsvFile(frame: Frame)
    | ArrayFile(data: Matrix)
    | ObjectFile(obj: StoredObject)
    | ReportFile(report: Report)

  type FileSystem = map<string, File>

  /** What the library guarantees of the files it writes: frames read from
      CSV are well formed and pickled pipelines are fitted. */
  predicate Sound(fs: FileSystem) {
    forall p :: p in fs ==>
      && (fs[p].CsvFile? ==> WellFormed(fs[p].frame))
      && (fs[p].ObjectFile? && fs[p].obj.TransformerObject? ==> Fitted(fs[p].obj.pipeline))
  }

  /** `pd.read_csv(path)`. */
  function ReadCsv(fs: FileSystem, path: string): (r: Result<Frame, Error>)
    requires Sound(fs)
    ensures r.Success? <==> path in fs && fs[path].CsvFile?
    ensures r.Success? ==> r.value == fs[path].frame && WellFormed(r.value)
  {
    if path !in fs then Failure(FileNotFound(path))
    else match fs[path]
      case CsvFile(f) => Success(f)
      case _ => Failure(UnexpectedContent(path))
  }

  /** `load_numpy_array(path)`. */
  function LoadArray(fs: FileSystem, path: string): (r: Result<Matrix, Error>)
    ensures r.Success? <==> path in fs && fs[path].ArrayFile?
    ensures r.Success? ==> r.value == fs[path].data
  {
    if path !in fs then Failure(FileNotFound(path))
    else match fs[path]
      case ArrayFile(a) => Success(a)
      case _ => Failure(UnexpectedContent(path))
  }

  /** `load_object(path)`: raises when the file does not exist. */
  function LoadObject(fs: FileSystem, path: string): (r: Result<StoredObject, Error>)
    ensures r.Success? <==> path in fs && fs[path].ObjectFile?
    ensures path !in fs ==> r == Failure(FileNotFound(path))
    ensures r.Success? ==> r.value == fs[path].obj
  {
    if path !in fs then Failure(FileNotFound(path))
    else match fs[path]
      case ObjectFile(o) => Success(o)
      case _ => Failure(UnexpectedContent(path))
  }

  function LoadTransformer(fs: FileSystem, path: string): (r: Result<FeaturePipeline, Error>)
    requires Sound(fs)
    ensures r.Success? <==> LoadObject(fs, path).Success? && LoadObject(fs, path).value.TransformerObject?
    ensures r.Success? ==> r.value == fs[path].obj.pipeline && Fitted(r.value)
  {
    var o :- LoadObject(fs, path);
    if o.TransformerObject? then Success(o.pipeline) else Failure(UnexpectedContent(path))
  }

  function LoadEncoder(fs: FileSystem, path: string): (r: Result<LabelEncoder, Error>)
    ensures r.Success? <==> LoadObject(fs, path).Success? && LoadObject(fs, path).value.EncoderObject?
    ensures r.Success? ==> r.value == fs[path].obj.encoder
  {
    var o :- LoadObject(fs, path);
    if o.EncoderObject? then Success(o.encoder) else Failure(UnexpectedContent(path))
  }

  function LoadModel(fs: FileSystem, path: string): (r: Result<Classifier, Error>)
    ensures r.Success? <==> LoadObject(fs, path).Success? && LoadObject(fs, path).value.ModelObject?
    ensures r.Success? ==> r.value == fs[path].obj.model
  {
    var o :- LoadObject(fs, path);
    if o.ModelObject? then Success(o.model) else Failure(UnexpectedContent(path))
  }
}
