/** The feature transformer the transformation stage fits: a pipeline of a
    constant imputer (every missing cell becomes 0) followed by a robust
    scaler (subtract the column's median, divide by its inter-quartile
    range). The median and the quartiles are computed by the library and
    are opaque here; the fitted pipeline remembers the column names it was
    fitted on (`feature_names_in_`) and refuses a frame with other columns. */
module FeaturePipeline {
  import opened Wrappers
  import opened Tables
  import opened Errors

  /** `SimpleImputer(strategy='constant', fill_value=0)`. */
  const ImputeFillValue: real := 0.0

  /** A cell after imputation: missing cells take the fill value. */
  function Filled(c: Cell): real
    requires c.None? || c.value.Num?
  {
    if c.None? then ImputeFillValue else c.value.x
  }

  predicate NumericCells(cells: seq<Cell>) {
    forall i :: 0 <= i < |cells| ==> cells[i].None? || cells[i].value.Num?
  }

  /** The imputed values of one column as the robust scaler receives them.
      The constant imputer passes text through; the scaler's conversion to
      floats then raises on it. */
  function ImputeColumn(col: Column): (r: Result<seq<real>, Error>)
    ensures r.Success? <==> NumericCells(col.cells)
    ensures r.Failure? ==> r.error == NonNumericFeature(col.name)
    ensures r.Success? ==> |r.value| == |col.cells|
    ensures r.Success? ==> forall i :: 0 <= i < |col.cells| ==>
      r.value[i] == if col.cells[i].None? then ImputeFillValue else col.cells[i].value.x
  {
    if NumericCells(col.cells) then
      Success(seq(|col.cells|, i requires 0 <= i < |col.cells| => Filled(col.cells[i])))
    else Failure(NonNumericFeature(col.name))
  }

  predicate NumericFrame(f: Frame) {
    forall j :: 0 <= j < |f.columns| ==> NumericCells(f.columns[j].cells)
  }

  /** The first column holding text. */
  function FirstNonNumeric(cols: seq<Column>): (k: nat)
    requires exists j :: 0 <= j < |cols| && !NumericCells(cols[j].cells)
    ensures k < |cols| && !NumericCells(cols[k].cells)
  {
    if !NumericCells(cols[0].cells) then 0
    else
      assert exists j :: 0 <= j < |cols[1..]| && !NumericCells(cols[1..][j].cells) by {
        var j :| 0 <= j < |cols| && !NumericCells(cols[j].cells);
        assert cols[1..][j - 1] == cols[j];
      }
      1 + FirstNonNumeric(cols[1..])
  }

  /** A fitted pipeline: the feature names seen in `fit` and, per feature,
      the scaler's centre and scale. */
  datatype FeaturePipeline = FeaturePipeline(featureNames: seq<string>, center: seq<real>, scale: seq<real>)

  /** A scale of zero is replaced by one, as the robust scaler does. */
  function NonZeroScale(s: real): (r: real)
    ensures r != 0.0 && (s != 0.0 ==> r == s)
  {
    if s == 0.0 then 1.0 else s
  }

  /** `pipeline.fit(features)`; `stats` gives a column's median and
      inter-quartile range. A frame without rows or without columns raises
      when the imputer validates it (at least one sample and one feature are
      required). The imputer accepts text columns, filling their gaps with
      0, and the robust scaler's conversion to floats raises on the text. */
  function Fit(f: Frame, stats: seq<real> -> (real, real)): (r: Result<FeaturePipeline, Error>)
    requires WellFormed(f)
    ensures r.Success? <==> NumericFrame(f) && f.rows > 0 && |f.columns| > 0
    ensures f.rows == 0 || |f.columns| == 0 ==> r == Failure(EmptyArray(f.rows, |f.columns|))
    ensures r.Success? ==> Fitted(r.value)
    ensures r.Success? ==> r.value.featureNames == Names(f.columns)
    ensures r.Success? ==> |r.value.center| == |f.columns| && |r.value.scale| == |f.columns|
    ensures r.Success? ==> forall j :: 0 <= j < |f.columns| ==>
      && ImputeColumn(f.columns[j]).Success?
      && r.value.center[j] == stats(ImputeColumn(f.columns[j]).value).0
      && r.value.scale[j] == NonZeroScale(stats(ImputeColumn(f.columns[j]).value).1)
  {
    if !NumericFrame(f) then
      Failure(NonNumericFeature(f.columns[FirstNonNumeric(f.columns)].name))
    else if f.rows == 0 || |f.columns| == 0 then
      Failure(EmptyArray(f.rows, |f.columns|))
    else
      var n := |f.columns|;
      var imputed := seq(n, j requires 0 <= j < n => ImputeColumn(f.columns[j]).value);
      Success(FeaturePipeline(
        Names(f.columns),
        seq(n, j requires 0 <= j < n => stats(imputed[j]).0),
        seq(n, j requires 0 <= j < n => NonZeroScale(stats(imputed[j]).1))))
  }

  predicate Fitted(p: FeaturePipeline) {
    && |p.featureNames| > 0 && Distinct(p.featureNames)
    && |p.center| == |p.featureNames| && |p.scale| == |p.featureNames|
    && forall j :: 0 <= j < |p.scale| ==> p.scale[j] != 0.0
  }

  /** One output cell: the imputed value, centred and scaled. */
  function Scaled(p: FeaturePipeline, j: nat, c: Cell): real
    requires Fitted(p) && j < |p.featureNames|
    requires c.None? || c.value.Num?
  {
    (Filled(c) - p.center[j]) / p.scale[j]
  }

  /** `pipeline.transform(features)`: one output row per input row, one
      output column per fitted feature. The frame must have exactly the
      fitted feature names, in the fitted order, and at least one row. */
  function Transform(p: FeaturePipeline, f: Frame): (r: Result<Matrix, Error>)
    requires Fitted(p) && WellFormed(f)
    ensures r.Success? <==> Names(f.columns) == p.featureNames && NumericFrame(f) && f.rows > 0
    ensures Names(f.columns) != p.featureNames ==> r == Failure(FeatureNamesMismatch(p.featureNames, Names(f.columns)))
    ensures r.Success? ==> |r.value| == f.rows
    ensures r.Success? ==> forall i :: 0 <= i < f.rows ==> |r.value[i]| == |p.featureNames|
    ensures r.Success? ==> forall i, j :: 0 <= i < f.rows && 0 <= j < |p.featureNames| ==>
      r.value[i][j] == Scaled(p, j, f.columns[j].cells[i])
  {
    if Names(f.columns) != p.featureNames then
      Failure(FeatureNamesMismatch(p.featureNames, Names(f.columns)))
    else if f.rows == 0 then
      Failure(EmptyArray(0, |f.columns|))
    else if !NumericFrame(f) then
      Failure(NonNumericFeature(f.columns[FirstNonNumeric(f.columns)].name))
    else
      var width := |p.featureNames|;
      Success(seq(f.rows, i requires 0 <= i < f.rows =>
        seq(width, j requires 0 <= j < width => Scaled(p, j, f.columns[j].cells[i]))))
  }

  /** A pipeline fitted on a well-formed frame accepts that frame back. */
  lemma FitThenTransform(f: Frame, stats: seq<real> -> (real, real))
    requires WellFormed(f) && Fit(f, stats).Success?
    ensures Transform(Fit(f, stats).value, f).Success?
    ensures |Transform(Fit(f, stats).value, f).value| == f.rows
  {
  }

  /** A missing cell transforms exactly as a cell holding the fill value 0
      does: imputation is by the constant 0, never by a statistic. */
  lemma MissingCellIsFilledWithZero(p: FeaturePipeline, f: Frame, i: nat, j: nat)
    requires Fitted(p) && WellFormed(f)
    requires j < |f.columns| && i < f.rows && f.columns[j].cells[i].None?
    requires Transform(p, f).Success?
    ensures var col := f.columns[j];
      var g := Frame(f.rows, f.columns[j := Column(col.name, col.cells[i := Some(Num(0.0))])]);
      WellFormed(g) && Transform(p, g) == Transform(p, f)
  {
    var col := f.columns[j];
    var g := Frame(f.rows, f.columns[j := Column(col.name, col.cells[i := Some(Num(0.0))])]);
    assert Names(g.columns) == Names(f.columns);
    assert WellFormed(g);
    assert NumericFrame(g) by {
      forall k | 0 <= k < |g.columns|
        ensures NumericCells(g.columns[k].cells)
      {
        assert k != j ==> g.columns[k] == f.columns[k];
      }
    }
    var a := Transform(p, f).value;
    var b := Transform(p, g).value;
    assert |a| == |b|;
    forall r | 0 <= r < f.rows
      ensures a[r] == b[r]
    {
      assert |a[r]| == |b[r]|;
      forall k | 0 <= k < |p.featureNames|
        ensures a[r][k] == b[r][k]
      {
        assert Scaled(p, k, f.columns[k].cells[r]) == Scaled(p, k, g.columns[k].cells[r]);
      }
    }
    assert a == b;
  }
}
