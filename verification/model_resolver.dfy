/** The model registry: a directory whose entries are named by integer
    versions, each holding one bundle (model, transformer, target encoder).
    "Latest" is the largest version; the next bundle is saved under the
    version one larger (or under 0 in an empty registry). The registry's
    contents are given as the entry names `os.listdir` returns, in whatever
    order it returns them. */
module ModelResolver {
  import opened Wrappers
  import opened Text
  import opened Errors
  import opened Entities

  datatype Resolver = Resolver(
    registry: string,
    transformerDirName: string,
    targetEncoderDirName: string,
    modelDirName: string,
    modelFileName: string)   // MODEL_FILE_NAME, defined outside the modelled files

  /** `ModelResolver()` with its default arguments: the registry
      `datadir/saved_models`, and three different plain sub-directory names
      so that the parts of one bundle never share a directory. */
  function DefaultResolver(modelFileName: string): (r: Resolver)
    ensures r.registry == "datadir/saved_models" && r.modelFileName == modelFileName
    ensures forall part :: |SubdirName(r, part)| > 0 && Sep !in SubdirName(r, part)
    ensures forall p, q :: p != q ==> SubdirName(r, p) != SubdirName(r, q)
  {
    var r := Resolver("datadir/saved_models", "transformer", "target_encoder", "model", modelFileName);
    assert r.transformerDirName[1] != r.targetEncoderDirName[1];
    assert r.transformerDirName[0] != r.modelDirName[0];
    assert r.targetEncoderDirName[0] != r.modelDirName[0];
    r
  }

  function SubdirName(res: Resolver, part: BundlePart): string {
    match part
    case ModelPart => res.modelDirName
    case TransformerPart => res.transformerDirName
    case TargetEncoderPart => res.targetEncoderDirName
  }

  function FileName(res: Resolver, part: BundlePart): string {
    match part
    case ModelPart => res.modelFileName
    case TransformerPart => TransformerObjectFileName
    case TargetEncoderPart => TargetEncoderObjectFileName
  }

  /** `<version dir>/<part's sub-directory>/<part's file name>`. */
  function PartPath(res: Resolver, versionDir: string, part: BundlePart): string {
    Join(Join(versionDir, SubdirName(res, part)), FileName(res, part))
  }

  /** `v` is the latest version of the listing: every entry parses as an
      integer no larger than `v`, and some entry parses as `v`. */
  predicate IsLatest(listing: seq<string>, v: int) {
    && (forall i :: 0 <= i < |listing| ==> ParseInt(listing[i]).Some? && ParseInt(listing[i]).value <= v)
    && (exists i :: 0 <= i < |listing| && ParseInt(listing[i]) == Some(v))
  }

  lemma LatestIsUnique(listing: seq<string>, v: int, w: int)
    requires IsLatest(listing, v) && IsLatest(listing, w)
    ensures v == w
  {
  }

  /** `list(map(int, dir_names))`: the first name that is not an integer
      raises. */
  function ParseVersions(listing: seq<string>): (r: Result<seq<int>, Error>)
    ensures r.Success? ==> |r.value| == |listing|
    ensures r.Success? ==> forall i :: 0 <= i < |listing| ==> ParseInt(listing[i]) == Some(r.value[i])
    ensures r.Failure? ==>
      exists i :: (&& 0 <= i < |listing| && ParseInt(listing[i]).None?
                   && r.error == MalformedVersion(listing[i])
                   && forall j :: 0 <= j < i ==> ParseInt(listing[j]).Some?)
  {
    if |listing| == 0 then Success([])
    else match ParseInt(listing[0])
      case None => Failure(MalformedVersion(listing[0]))
      case Some(v) =>
        var rest :- ParseVersions(listing[1..]);
        Success([v] + rest)
  }

  function Max(xs: seq<int>): (m: int)
    requires |xs| > 0
    ensures m in xs && forall i :: 0 <= i < |xs| ==> xs[i] <= m
  {
    if |xs| == 1 then xs[0]
    else var m := Max(xs[1..]); if xs[0] < m then m else xs[0]
  }

  /** The version number behind `get_latest_dir_path`. */
  function LatestVersion(listing: seq<string>): (r: Result<Option<int>, Error>)
    ensures |listing| == 0 <==> r == Success(None)
    ensures r.Failure? <==> exists i :: 0 <= i < |listing| && ParseInt(listing[i]).None?
    ensures r.Failure? ==> r.error.MalformedVersion? && r.error.name in listing
    ensures r.Success? && r.value.Some? ==> IsLatest(listing, r.value.value)
  {
    if |listing| == 0 then Success(None)
    else
      var versions :- ParseVersions(listing);
      var m := Max(versions);
      assert exists i :: 0 <= i < |versions| && versions[i] == m;
      Success(Some(m))
  }

  /** `get_latest_dir_path`: `None` for an empty registry, otherwise the
      registry joined with the decimal name of the largest version. */
  function LatestDirPath(res: Resolver, listing: seq<string>): (r: Result<Option<string>, Error>)
    ensures r.Success? <==> LatestVersion(listing).Success?
    ensures r.Failure? ==> r == LatestVersion(listing).PropagateFailure()
    ensures r.Success? ==> (r.value.None? <==> |listing| == 0)
    ensures r.Success? && r.value.Some? ==>
      r.value.value == Join(res.registry, ShowInt(LatestVersion(listing).value.value))
  {
    var latest :- LatestVersion(listing);
    match latest
    case None => Success(None)
    case Some(v) => Success(Some(Join(res.registry, ShowInt(v))))
  }

  /** `get_latest_model_path`, `get_latest_transformer_path` and
      `get_latest_target_encoder_path`, told apart by `part`. */
  function LatestBundlePath(res: Resolver, listing: seq<string>, part: BundlePart): (r: Result<string, Error>)
    ensures |listing| == 0 <==> r == Failure(BundleNotAvailable(part))
    ensures r.Failure? ==> r.error.BundleNotAvailable? || r.error.MalformedVersion?
    ensures r.Success? <==> LatestDirPath(res, listing).Success? && |listing| > 0
    ensures r.Success? ==> r.value == PartPath(res, LatestDirPath(res, listing).value.value, part)
  {
    var latestDir :- LatestDirPath(res, listing);
    match latestDir
    case None => Failure(BundleNotAvailable(part))
    case Some(dir) => Success(PartPath(res, dir, part))
  }

  /** The three latest paths lie in one version directory, the latest one,
      and differ only in sub-directory and file name. */
  lemma LatestBundleShareVersionDir(res: Resolver, listing: seq<string>, v: int)
    requires IsLatest(listing, v)
    ensures forall part ::
      (LatestBundlePath(res, listing, part) == Success(PartPath(res, Join(res.registry, ShowInt(v)), part)))
  {
    var latest := LatestVersion(listing);
    assert latest.Success?;
    LatestIsUnique(listing, v, latest.value.value);
  }

  /** The version written into a directory name is read back unchanged. */
  lemma ReadBackVersion(registry: string, v: int)
    ensures ParseInt(Basename(Join(registry, ShowInt(v)))) == Some(v)
  {
    BasenameOfJoin(registry, ShowInt(v));
    ParseShowInt(v);
  }

  /** The directory after `dir`: its name read back with
      `int(os.path.basename(...))`, incremented, joined to the registry. */
  function NextVersionDir(res: Resolver, dir: string): (r: Result<string, Error>)
    ensures r.Success? <==> ParseInt(Basename(dir)).Some?
    ensures r.Failure? ==> r.error == MalformedVersion(Basename(dir))
  {
    var name := Basename(dir);
    match ParseInt(name)
    case None => Failure(MalformedVersion(name))
    case Some(n) => Success(Join(res.registry, ShowInt(n + 1)))
  }

  /** A directory whose name reads back as version `v` is followed by the
      one named after `v + 1`. */
  lemma NextOfVersionDir(res: Resolver, dir: string, v: int)
    requires ParseInt(Basename(dir)) == Some(v)
    ensures NextVersionDir(res, dir) == Success(Join(res.registry, ShowInt(v + 1)))
  {
  }

  /** `get_latest_save_dir_path`: the version name is read back from the
      latest directory with `int(os.path.basename(...))` and incremented. */
  function LatestSaveDirPath(res: Resolver, listing: seq<string>): (r: Result<string, Error>)
    ensures r.Success? <==> LatestVersion(listing).Success?
    ensures |listing| == 0 ==> r == Success(Join(res.registry, ShowInt(0)))
    ensures LatestVersion(listing).Success? && LatestVersion(listing).value.Some? ==>
      r == Success(Join(res.registry, ShowInt(LatestVersion(listing).value.value + 1)))
  {
    var latestDir :- LatestDirPath(res, listing);
    match latestDir
    case None =>
      assert ShowInt(0) == "0";
      Success(Join(res.registry, "0"))
    case Some(dir) =>
      var v := LatestVersion(listing).value.value;
      ReadBackVersion(res.registry, v);
      NextOfVersionDir(res, dir, v);
      NextVersionDir(res, dir)
  }

  /** `get_latest_save_model_path`, `get_latest_save_transformer_path` and
      `get_latest_save_target_encoder_path`. */
  function SaveBundlePath(res: Resolver, listing: seq<string>, part: BundlePart): (r: Result<string, Error>)
    ensures r.Success? <==> LatestVersion(listing).Success?
    ensures r.Success? ==> r.value == PartPath(res, LatestSaveDirPath(res, listing).value, part)
    ensures |listing| == 0 ==> r == Success(PartPath(res, Join(res.registry, ShowInt(0)), part))
  {
    var saveDir :- LatestSaveDirPath(res, listing);
    Success(PartPath(res, saveDir, part))
  }

  /** The save slot's version is larger than every version in the registry,
      so its name is not an existing entry and its directory is not an
      existing version directory: a save never overwrites a bundle. */
  lemma SaveSlotIsFresh(res: Resolver, listing: seq<string>)
    requires LatestVersion(listing).Success?
    requires forall i :: 0 <= i < |listing| ==> Sep !in listing[i] && |listing[i]| > 0
    ensures var dir := LatestSaveDirPath(res, listing).value;
      && ParseInt(Basename(dir)).Some?
      && (forall i :: 0 <= i < |listing| ==> ParseInt(listing[i]).value < ParseInt(Basename(dir)).value)
      && Basename(dir) !in listing
      && (forall i :: 0 <= i < |listing| ==> Join(res.registry, listing[i]) != dir)
  {
    var latest := LatestVersion(listing).value;
    var s := if latest.None? then 0 else latest.value + 1;
    var dir := LatestSaveDirPath(res, listing).value;
    var name := ShowInt(s);
    assert dir == Join(res.registry, name);
    BasenameOfJoin(res.registry, name);
    ParseShowInt(s);
    assert ParseInt(Basename(dir)) == Some(s);
    forall i | 0 <= i < |listing|
      ensures ParseInt(listing[i]).Some? && ParseInt(listing[i]).value < s
      ensures listing[i] != name
      ensures Join(res.registry, listing[i]) != dir
    {
      assert ParseInt(listing[i]).Some?;
      JoinInjective(res.registry, listing[i], name);
    }
  }

  /** Once the save slot has been written to (the listing now also holds its
      name), it is what `get_latest_dir_path` resolves to, and each latest
      bundle path is the save path computed before: versions only grow. */
  lemma SavedSlotBecomesLatest(res: Resolver, listing: seq<string>, listing': seq<string>)
    requires LatestVersion(listing).Success?
    requires forall x :: x in listing' <==> x in listing || x == Basename(LatestSaveDirPath(res, listing).value)
    ensures LatestDirPath(res, listing') == Success(Some(LatestSaveDirPath(res, listing).value))
    ensures forall part :: LatestBundlePath(res, listing', part) == SaveBundlePath(res, listing, part)
  {
    var latest := LatestVersion(listing).value;
    var s := if latest.None? then 0 else latest.value + 1;
    var dir := LatestSaveDirPath(res, listing).value;
    BasenameOfJoin(res.registry, ShowInt(s));
    ParseShowInt(s);
    var name := ShowInt(s);
    assert Basename(dir) == name;
    assert name in listing';
    var k :| 0 <= k < |listing'| && listing'[k] == name;
    forall i | 0 <= i < |listing'|
      ensures ParseInt(listing'[i]).Some? && ParseInt(listing'[i]).value <= s
    {
      if listing'[i] != name {
        assert listing'[i] in listing;
        var j :| 0 <= j < |listing| && listing[j] == listing'[i];
      }
    }
    assert IsLatest(listing', s);
    var latest' := LatestVersion(listing');
    assert latest'.Success?;
    LatestIsUnique(listing', s, latest'.value.value);
  }
}
