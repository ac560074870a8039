/** The data validation stage: schema drops, missing-value drops, the
    required-column and column-count checks (each fatal), then the
    informational drift report; the report and the cleaned splits are
    written only when every check passed. */
module DataValidation {
  import opened Wrappers
  import opened Tables
  import opened Errors
  import opened Entities
  import opened Storage

  /** A column is judged to come from one distribution in both splits when
      the test's p-value is strictly above this. */
  const DriftPValueThreshold: real := 0.05

  const TrainMissingKey: string := "train_missing_values_columns"
  const TestMissingKey: string := "test_missing_values_columns"
  const TrainRequiredKey: string := "train_required_column"
  const TestRequiredKey: string := "test_required_column"
  const DriftKey: string := "train_test_drift_report"

  /** `df[col].isna().sum() / df.shape[0] > threshold`. With no rows the
      division is 0/0, which pandas turns into NaN, and NaN > threshold is
      false: nothing is dropped from an empty frame. */
  predicate TooManyMissing(col: Column, rows: nat, threshold: real) {
    rows > 0 && (NullCount(col.cells) as real) / (rows as real) > threshold
  }

  /** A column stays exactly when its missing cells are at most
      `threshold` times the row count: a column AT the threshold stays. */
  lemma KeptIffWithinThreshold(col: Column, rows: nat, threshold: real)
    ensures !TooManyMissing(col, rows, threshold) <==>
      rows == 0 || NullCount(col.cells) as real <= threshold * rows as real
  {
    if rows > 0 {
      var n := NullCount(col.cells) as real;
      var m := rows as real;
      assert n / m > threshold <==> n > threshold * m by {
        assert n == (n / m) * m;
      }
    }
  }

  /** The report lists under `key` exactly the names of the columns of `f`
      with too many missing values, in column order. */
  predicate SparseColumnsListed(report: Report, key: string, f: Frame, threshold: real) {
    && key in report && report[key].ColumnList?
    && SubsequenceOf(report[key].names, Names(f.columns))
    && forall j :: 0 <= j < |f.columns| ==>
         (f.columns[j].name in report[key].names <==> TooManyMissing(f.columns[j], f.rows, threshold))
  }

  /** `drop_missing_values_columns`: records the names of the columns with
      too many missing values under `key` (even when there are none), drops
      them, and gives `None` when no column is left. */
  function DropMissingValuesColumns(f: Frame, key: string, threshold: real, report: Report)
    : (r: (Option<Frame>, Report))
    requires WellFormed(f)
    ensures var (kept, report') := r;
      && report'.Keys == report.Keys + {key}
      && (forall k :: k in report && k != key ==> report'[k] == report[k])
      && SparseColumnsListed(report', key, f, threshold)
    ensures var kept := r.0;
      kept.None? <==> forall c :: c in f.columns ==> TooManyMissing(c, f.rows, threshold)
    ensures var kept := r.0;
      kept.Some? ==>
        && WellFormed(kept.value) && kept.value.rows == f.rows
        && SubsequenceOf(kept.value.columns, f.columns)
        && forall c :: c in kept.value.columns <==> c in f.columns && !TooManyMissing(c, f.rows, threshold)
  {
    var tooSparse := (c: Column) => TooManyMissing(c, f.rows, threshold);
    var dropped := Filter(f.columns, tooSparse);
    var report' := report[key := ColumnList(Names(dropped))];
    NamesOfFilterSubsequence(f.columns, tooSparse);
    forall j | 0 <= j < |f.columns|
      ensures f.columns[j].name in Names(dropped) <==> tooSparse(f.columns[j])
    {
      if f.columns[j].name in Names(dropped) {
        var k :| 0 <= k < |dropped| && Names(dropped)[k] == f.columns[j].name;
        assert dropped[k] in dropped;
        var i :| 0 <= i < |f.columns| && f.columns[i] == dropped[k];
        assert Names(f.columns)[i] == Names(f.columns)[j];
      } else {
        assert f.columns[j] !in dropped;
      }
    }
    var g := SelectColumns(f, (c: Column) => !TooManyMissing(c, f.rows, threshold));
    if |g.columns| == 0 then
      assert forall c :: c !in g.columns;
      (None, report')
    else
      assert g.columns[0] in f.columns;
      (Some(g), report')
  }

  /** The names of a selection are a subsequence of the names. */
  lemma {:induction false} NamesOfFilterSubsequence(cols: seq<Column>, p: Column -> bool)
    ensures SubsequenceOf(Names(Filter(cols, p)), Names(cols))
  {
    if |cols| > 0 {
      NamesOfFilterSubsequence(cols[1..], p);
      assert Names(cols)[1..] == Names(cols[1..]);
      if p(cols[0]) {
        assert Names(Filter(cols, p))[1..] == Names(Filter(cols[1..], p));
      }
    }
  }

  /** `is_required_column_exists`: true when every required column is
      present; otherwise records the missing ones, in schema order, under
      `key` and answers `None`, which the caller reads as false. */
  function IsRequiredColumnExists(f: Frame, key: string, required: seq<string>, report: Report)
    : (r: (bool, Report))
    ensures r.0 <==> forall n :: n in required ==> HasColumn(f, n)
    ensures r.0 ==> r.1 == report
    ensures !r.0 ==>
      && r.1.Keys == report.Keys + {key}
      && (forall k :: k in report && k != key ==> r.1[k] == report[k])
      && r.1[key].ColumnList?
      && SubsequenceOf(r.1[key].names, required)
      && forall n :: n in r.1[key].names <==> n in required && !HasColumn(f, n)
  {
    var missing := Filter(required, (n: string) => !HasColumn(f, n));
    if |missing| == 0 then
      assert forall n :: n !in missing;
      (true, report)
    else
      assert missing[0] in required && !HasColumn(f, missing[0]);
      (false, report[key := ColumnList(missing)])
  }

  /** `df.drop(list(drop_cols), axis=1)`: every listed name must be a
      column (pandas raises `KeyError` naming the absent ones); all listed
      columns are removed and the others keep their order. */
  function DropColumns(f: Frame, drop: seq<string>): (r: Result<Frame, Error>)
    requires WellFormed(f)
    ensures r.Success? <==> forall n :: n in drop ==> HasColumn(f, n)
    ensures r.Failure? ==> r.error.ColumnsNotFound?
    ensures r.Failure? ==> forall n :: n in r.error.names <==> n in drop && !HasColumn(f, n)
    ensures r.Success? ==>
      && WellFormed(r.value) && r.value.rows == f.rows
      && SubsequenceOf(r.value.columns, f.columns)
      && forall c :: c in r.value.columns <==> c in f.columns && c.name !in drop
  {
    var absent := Filter(drop, (n: string) => !HasColumn(f, n));
    if |absent| > 0 then
      assert absent[0] in drop && !HasColumn(f, absent[0]);
      Failure(ColumnsNotFound(absent))
    else
      assert forall n :: n !in absent;
      Success(SelectColumns(f, (c: Column) => c.name !in drop))
  }

  /** The drift verdict for one column. */
  function Verdict(pValue: real): (s: DriftStat)
    ensures s.pValue == pValue
    ensures s.sameDistribution <==> pValue > DriftPValueThreshold
  {
    DriftStat(pValue, pValue > DriftPValueThreshold)
  }

  /** One drift entry per base column, in base order, comparing it with the
      current frame's column of the same name (`current_df[col]`, which
      raises when the current frame has no such column). */
  function DriftEntries(base: seq<Column>, current: Frame, ks: (seq<Cell>, seq<Cell>) -> real)
    : (r: Result<seq<DriftEntry>, Error>)
    ensures r.Success? <==> forall j :: 0 <= j < |base| ==>
      && HasColumn(current, base[j].name)
      && |base[j].cells| > 0
      && |Lookup(current.columns, base[j].name).value.cells| > 0
    ensures r.Failure? ==> exists j :: 0 <= j < |base| && (r.error == ColumnsNotFound([base[j].name]) || r.error == EmptySample(base[j].name))
    ensures r.Success? ==> |r.value| == |base|
    ensures r.Success? ==> forall j :: 0 <= j < |base| ==>
      && r.value[j].column == base[j].name
      && r.value[j].stat.pValue == ks(base[j].cells, Lookup(current.columns, base[j].name).value.cells)
      && (r.value[j].stat.sameDistribution <==> r.value[j].stat.pValue > DriftPValueThreshold)
  {
    if |base| == 0 then Success([])
    else match Lookup(current.columns, base[0].name)
      case None => Failure(ColumnsNotFound([base[0].name]))
      case Some(col) =>
        if |base[0].cells| == 0 || |col.cells| == 0 then Failure(EmptySample(base[0].name))
        else
        var rest :- DriftEntries(base[1..], current, ks);
        Success([DriftEntry(base[0].name, Verdict(ks(base[0].cells, col.cells)))] + rest)
  }

  /** The report holds under `key` one drift verdict per column, in column
      order, each "same distribution" exactly when its p-value exceeds the
      threshold. */
  predicate DriftTable(report: Report, key: string, cols: seq<Column>) {
    && key in report && report[key].DriftReport?
    && |report[key].entries| == |cols|
    && forall j :: 0 <= j < |cols| ==>
         && report[key].entries[j].column == cols[j].name
         && (report[key].entries[j].stat.sameDistribution <==>
               report[key].entries[j].stat.pValue > DriftPValueThreshold)
  }

  /** `data_drift`: records the drift table under `key`. */
  function DataDrift(base: Frame, current: Frame, key: string, ks: (seq<Cell>, seq<Cell>) -> real, report: Report)
    : (r: Result<Report, Error>)
    ensures r.Success? <==> DriftEntries(base.columns, current, ks).Success?
    ensures r.Success? ==>
      && r.value.Keys == report.Keys + {key}
      && (forall k :: k in report && k != key ==> r.value[k] == report[k])
      && r.value[key] == DriftReport(DriftEntries(base.columns, current, ks).value)
    ensures r.Success? ==> DriftTable(r.value, key, base.columns)
  {
    var entries :- DriftEntries(base.columns, current, ks);
    Success(report[key := DriftReport(entries)])
  }

  /** The outcome of the checks: the cleaned splits and the report. */
  datatype Validated = Validated(train: Frame, test: Frame, report: Report)

  /** Schema drops, train first. */
  function SchemaDrops(drop: seq<string>, train: Frame, test: Frame): (r: Result<(Frame, Frame), Error>)
    requires WellFormed(train) && WellFormed(test)
    ensures r.Success? <==> forall n :: n in drop ==> HasColumn(train, n) && HasColumn(test, n)
    ensures DropColumns(train, drop).Failure? ==> r == DropColumns(train, drop).PropagateFailure()
    ensures r.Failure? ==> r.error.ColumnsNotFound?
    ensures r.Success? ==>
      && WellFormed(r.value.0) && r.value.0.rows == train.rows
      && WellFormed(r.value.1) && r.value.1.rows == test.rows
    ensures r.Success? ==> forall c :: c in r.value.0.columns <==> c in train.columns && c.name !in drop
    ensures r.Success? ==> forall c :: c in r.value.1.columns <==> c in test.columns && c.name !in drop
    ensures r.Success? ==> SubsequenceOf(r.value.0.columns, train.columns) && SubsequenceOf(r.value.1.columns, test.columns)
  {
    var train1 :- DropColumns(train, drop);
    var test1 :- DropColumns(test, drop);
    Success((train1, test1))
  }

  /** Missing-value drops on both splits, then the empty train check before
      the empty test check. */
  function MissingDrops(threshold: real, train: Frame, test: Frame): (r: Result<Validated, Error>)
    requires WellFormed(train) && WellFormed(test)
    ensures (forall c :: c in train.columns ==> TooManyMissing(c, train.rows, threshold)) ==>
      r == Failure(NoColumnsLeft(TrainSplit))
    ensures r.Success? <==>
      && (exists c :: c in train.columns && !TooManyMissing(c, train.rows, threshold))
      && (exists c :: c in test.columns && !TooManyMissing(c, test.rows, threshold))
    ensures r.Failure? ==> r.error.NoColumnsLeft?
    ensures r.Success? ==>
      && WellFormed(r.value.train) && r.value.train.rows == train.rows && |r.value.train.columns| > 0
      && WellFormed(r.value.test) && r.value.test.rows == test.rows && |r.value.test.columns| > 0
    ensures r.Success? ==> forall c :: c in r.value.train.columns <==>
      c in train.columns && !TooManyMissing(c, train.rows, threshold)
    ensures r.Success? ==> forall c :: c in r.value.test.columns <==>
      c in test.columns && !TooManyMissing(c, test.rows, threshold)
    ensures r.Success? ==> SubsequenceOf(r.value.train.columns, train.columns)
    ensures r.Success? ==> SubsequenceOf(r.value.test.columns, test.columns)
    ensures r.Success? ==> r.value.report.Keys == {TrainMissingKey, TestMissingKey}
    ensures r.Success? ==> SparseColumnsListed(r.value.report, TrainMissingKey, train, threshold)
    ensures r.Success? ==> SparseColumnsListed(r.value.report, TestMissingKey, test, threshold)
  {
    var (train2, report1) := DropMissingValuesColumns(train, TrainMissingKey, threshold, map[]);
    var (test2, report2) := DropMissingValuesColumns(test, TestMissingKey, threshold, report1);
    if train2.None? then Failure(NoColumnsLeft(TrainSplit))
    else if test2.None? then Failure(NoColumnsLeft(TestSplit))
    else
      assert train2.value.columns[0] in train2.value.columns;
      assert test2.value.columns[0] in test2.value.columns;
      Success(Validated(train2.value, test2.value, report2))
  }

  /** The required-column check on train, then on test; on success the
      report is unchanged. */
  function RequiredChecks(required: seq<string>, train: Frame, test: Frame, report: Report)
    : (r: Result<Report, Error>)
    ensures (exists n :: n in required && !HasColumn(train, n)) ==> r == Failure(RequiredColumnsMissing(TrainSplit))
    ensures r.Success? <==> forall n :: n in required ==> HasColumn(train, n) && HasColumn(test, n)
    ensures r.Failure? ==> r.error.RequiredColumnsMissing?
    ensures r.Success? ==> r.value == report
  {
    var (trainOk, report3) := IsRequiredColumnExists(train, TrainRequiredKey, required, report);
    if !trainOk then Failure(RequiredColumnsMissing(TrainSplit))
    else
      var (testOk, report4) := IsRequiredColumnExists(test, TestRequiredKey, required, report3);
      if !testOk then Failure(RequiredColumnsMissing(TestSplit))
      else Success(report4)
  }

  /** Equal column counts. */
  function ColumnCountCheck(train: Frame, test: Frame): (r: Result<(), Error>)
    ensures r.Success? <==> |train.columns| == |test.columns|
    ensures r.Failure? ==> r.error == ColumnCountMismatch(|train.columns|, |test.columns|)
  {
    if |train.columns| != |test.columns| then Failure(ColumnCountMismatch(|train.columns|, |test.columns|))
    else Success(())
  }

  /** A column of a split survives both kinds of drop. */
  predicate Survives(c: Column, drop: seq<string>, rows: nat, threshold: real) {
    c.name !in drop && !TooManyMissing(c, rows, threshold)
  }

  /** The columns of `f` that survive both drops, in their original order. */
  function Survivors(f: Frame, drop: seq<string>, threshold: real): (s: seq<Column>)
    ensures forall c :: c in s <==> c in f.columns && Survives(c, drop, f.rows, threshold)
    ensures SubsequenceOf(s, f.columns)
  {
    Filter(f.columns, (c: Column) => Survives(c, drop, f.rows, threshold))
  }

  /** Dropping the schema's columns and then the sparse ones leaves exactly
      the survivors, in order: with unique columns a selection is fixed by
      its members. */
  lemma CleanedAreSurvivors(f: Frame, dropped: seq<Column>, cleaned: seq<Column>, drop: seq<string>, threshold: real)
    requires WellFormed(f)
    requires SubsequenceOf(dropped, f.columns) && SubsequenceOf(cleaned, dropped)
    requires forall c :: c in dropped <==> c in f.columns && c.name !in drop
    requires forall c :: c in cleaned <==> c in dropped && !TooManyMissing(c, f.rows, threshold)
    ensures cleaned == Survivors(f, drop, threshold)
  {
    SubsequenceTransitive(cleaned, dropped, f.columns);
    DistinctColumns(f.columns);
    SubsequenceDetermined(cleaned, Survivors(f, drop, threshold), f.columns);
  }

  /** After the schema drops, some column is dense enough exactly when some
      column survives both drops. */
  lemma SurvivorsNonEmpty(f: Frame, dropped: Frame, drop: seq<string>, threshold: real)
    requires dropped.rows == f.rows
    requires forall c :: c in dropped.columns <==> c in f.columns && c.name !in drop
    ensures |Survivors(f, drop, threshold)| > 0 <==>
      exists c :: c in dropped.columns && !TooManyMissing(c, dropped.rows, threshold)
  {
    var s := Survivors(f, drop, threshold);
    if |s| > 0 {
      assert s[0] in s;
    }
  }

  /** The two kinds of drop: schema drops on train then test, then
      missing-value drops with the empty train check before the empty test
      check. What is left of each split is exactly its surviving columns. */
  function Clean(drop: seq<string>, threshold: real, train: Frame, test: Frame): (r: Result<Validated, Error>)
    requires WellFormed(train) && WellFormed(test)
    ensures r.Success? <==>
      && (forall n :: n in drop ==> HasColumn(train, n) && HasColumn(test, n))
      && |Survivors(train, drop, threshold)| > 0 && |Survivors(test, drop, threshold)| > 0
    ensures r.Success? ==>
      && WellFormed(r.value.train) && WellFormed(r.value.test)
      && r.value.train.rows == train.rows && r.value.test.rows == test.rows
    ensures r.Success? ==> r.value.train.columns == Survivors(train, drop, threshold)
    ensures r.Success? ==> r.value.test.columns == Survivors(test, drop, threshold)
    ensures r.Success? ==> r.value.report.Keys == {TrainMissingKey, TestMissingKey}
    ensures r.Success? ==>
      && SparseColumnsListed(r.value.report, TrainMissingKey, SchemaDrops(drop, train, test).value.0, threshold)
      && SparseColumnsListed(r.value.report, TestMissingKey, SchemaDrops(drop, train, test).value.1, threshold)
  {
    var dropped :- SchemaDrops(drop, train, test);
    SurvivorsNonEmpty(train, dropped.0, drop, threshold);
    SurvivorsNonEmpty(test, dropped.1, drop, threshold);
    var cleaned :- MissingDrops(threshold, dropped.0, dropped.1);
    CleanedAreSurvivors(train, dropped.0.columns, cleaned.train.columns, drop, threshold);
    CleanedAreSurvivors(test, dropped.1.columns, cleaned.test.columns, drop, threshold);
    Success(cleaned)
  }

  /** A missing-value list survives any report update that leaves its key alone. */
  lemma SparseListKept(report: Report, report': Report, key: string, f: Frame, threshold: real)
    requires SparseColumnsListed(report, key, f, threshold)
    requires key in report' && report'[key] == report[key]
    ensures SparseColumnsListed(report', key, f, threshold)
  {
  }

  /** The checks of `initiate_data_validation` in their order: schema drops
      on train then test, missing-value drops, the empty train check, the
      empty test check, the required columns of train, those of test, equal
      column counts, and only then the drift table. A successful validation
      keeps each split's rows and exactly its surviving columns in their
      original order, holds every required column in both splits, and gives
      both the same non-zero number of columns; its report holds exactly the
      two missing-value lists and the drift table, with one drift entry per
      cleaned train column. */
  function Validate(schema: Schema, threshold: real, train: Frame, test: Frame,
                    ks: (seq<Cell>, seq<Cell>) -> real): (r: Result<Validated, Error>)
    requires WellFormed(train) && WellFormed(test)
    ensures r.Success? ==>
      && WellFormed(r.value.train) && WellFormed(r.value.test)
      && r.value.train.rows == train.rows && r.value.test.rows == test.rows
    ensures r.Success? ==> r.value.train.columns == Survivors(train, schema.dropColumns, threshold)
    ensures r.Success? ==> r.value.test.columns == Survivors(test, schema.dropColumns, threshold)
    ensures r.Success? ==> forall n :: n in schema.requiredColumns ==>
      HasColumn(r.value.train, n) && HasColumn(r.value.test, n)
    ensures r.Success? ==> |r.value.train.columns| == |r.value.test.columns| > 0
    ensures r.Success? ==> r.value.report.Keys == {TrainMissingKey, TestMissingKey, DriftKey}
    ensures r.Success? ==> DriftTable(r.value.report, DriftKey, r.value.train.columns)
  {
    var cleaned :- Clean(schema.dropColumns, threshold, train, test);
    var report :- RequiredChecks(schema.requiredColumns, cleaned.train, cleaned.test, cleaned.report);
    var _ :- ColumnCountCheck(cleaned.train, cleaned.test);
    var report' :- DataDrift(cleaned.train, cleaned.test, DriftKey, ks, report);
    Success(Validated(cleaned.train, cleaned.test, report'))
  }

  /** What a successful validation writes into its report: under each
      missing-value key exactly the sparse columns of that split after the
      schema drops, in frame order, and under the drift key the
      Kolmogorov-Smirnov verdict of each cleaned train column against the
      cleaned test column of the same name. */
  lemma ValidateReport(schema: Schema, threshold: real, train: Frame, test: Frame,
                       ks: (seq<Cell>, seq<Cell>) -> real)
    requires WellFormed(train) && WellFormed(test)
    requires Validate(schema, threshold, train, test, ks).Success?
    ensures SchemaDrops(schema.dropColumns, train, test).Success?
    ensures var v := Validate(schema, threshold, train, test, ks).value;
      var dropped := SchemaDrops(schema.dropColumns, train, test).value;
      && SparseColumnsListed(v.report, TrainMissingKey, dropped.0, threshold)
      && SparseColumnsListed(v.report, TestMissingKey, dropped.1, threshold)
    ensures var v := Validate(schema, threshold, train, test, ks).value;
      && DriftEntries(v.train.columns, v.test, ks).Success?
      && v.report[DriftKey] == DriftReport(DriftEntries(v.train.columns, v.test, ks).value)
  {
    var v := Validate(schema, threshold, train, test, ks).value;
    var c := Clean(schema.dropColumns, threshold, train, test).value;
    var rc := RequiredChecks(schema.requiredColumns, c.train, c.test, c.report).value;
    var dd := DataDrift(c.train, c.test, DriftKey, ks, rc);
    assert dd.Success? && v.report == dd.value;
    assert v.train == c.train && v.test == c.test;
    var dropped := SchemaDrops(schema.dropColumns, train, test).value;
    SparseListKept(rc, v.report, TrainMissingKey, dropped.0, threshold);
    SparseListKept(rc, v.report, TestMissingKey, dropped.1, threshold);
  }

  /** Validation succeeds exactly when every schema drop column is in both
      splits, each split keeps at least one column, every required column
      survives in both, both keep the same number of columns, every
      surviving train column has a surviving test column of that name (the
      drift table looks each one up), and both splits have a row (the
      Kolmogorov-Smirnov test rejects an empty sample). */
  lemma ValidateSucceedsIff(schema: Schema, threshold: real, train: Frame, test: Frame,
                            ks: (seq<Cell>, seq<Cell>) -> real)
    requires WellFormed(train) && WellFormed(test)
    ensures var st := Survivors(train, schema.dropColumns, threshold);
      var ss := Survivors(test, schema.dropColumns, threshold);
      Validate(schema, threshold, train, test, ks).Success? <==>
        && (forall n :: n in schema.dropColumns ==> HasColumn(train, n) && HasColumn(test, n))
        && |st| > 0 && |ss| > 0
        && (forall n :: n in schema.requiredColumns ==> n in Names(st) && n in Names(ss))
        && |st| == |ss|
        && (forall j :: 0 <= j < |st| ==> st[j].name in Names(ss))
        && train.rows > 0 && test.rows > 0
  {
    var v := Validate(schema, threshold, train, test, ks);
    var c := Clean(schema.dropColumns, threshold, train, test);
    if c.Failure? {
      assert v == c.PropagateFailure();
    } else {
      var m := c.value;
      var rc := RequiredChecks(schema.requiredColumns, m.train, m.test, m.report);
      if rc.Failure? {
        assert v == rc.PropagateFailure();
      } else {
        var cc := ColumnCountCheck(m.train, m.test);
        if cc.Failure? {
          assert v == cc.PropagateFailure();
        } else {
          var dd := DataDrift(m.train, m.test, DriftKey, ks, rc.value);
          assert v.Success? == dd.Success?;
          DriftNeedsRows(m.train, m.test, ks);
        }
      }
    }
  }

  /** Between two well-formed frames whose first has a column, the drift
      table can be built exactly when every column of the first is found in
      the second and both have a row. */
  lemma DriftNeedsRows(base: Frame, current: Frame, ks: (seq<Cell>, seq<Cell>) -> real)
    requires WellFormed(base) && WellFormed(current) && |base.columns| > 0
    ensures DriftEntries(base.columns, current, ks).Success? <==>
      && (forall j :: 0 <= j < |base.columns| ==> HasColumn(current, base.columns[j].name))
      && base.rows > 0 && current.rows > 0
  {
    var cols := base.columns;
    var found := forall j :: 0 <= j < |cols| ==> HasColumn(current, cols[j].name);
    if found {
      forall j | 0 <= j < |cols|
        ensures |Lookup(current.columns, cols[j].name).value.cells| == current.rows
      {
        var col := Lookup(current.columns, cols[j].name).value;
        var k :| 0 <= k < |current.columns| && current.columns[k] == col;
      }
      assert |cols[0].cells| == base.rows;
    }
  }

  /** A schema drop column absent from train fails validation before
      anything else is looked at, whatever the test split holds. */
  lemma SchemaDropOnTrainComesFirst(schema: Schema, threshold: real, train: Frame, test: Frame,
                                    ks: (seq<Cell>, seq<Cell>) -> real)
    requires WellFormed(train) && WellFormed(test)
    requires exists n :: n in schema.dropColumns && !HasColumn(train, n)
    ensures Validate(schema, threshold, train, test, ks) == Failure(DropColumns(train, schema.dropColumns).error)
  {
  }

  /** When no train column survives the drops, validation reports the
      train split as empty even if the test split is empty too. */
  lemma EmptyTrainBeforeEmptyTest(schema: Schema, threshold: real, train: Frame, test: Frame,
                                  ks: (seq<Cell>, seq<Cell>) -> real)
    requires WellFormed(train) && WellFormed(test)
    requires forall n :: n in schema.dropColumns ==> HasColumn(train, n) && HasColumn(test, n)
    requires forall c :: c in train.columns ==> !Survives(c, schema.dropColumns, train.rows, threshold)
    ensures Validate(schema, threshold, train, test, ks) == Failure(NoColumnsLeft(TrainSplit))
  {
    var dropped := SchemaDrops(schema.dropColumns, train, test);
    assert dropped.Success?;
    assert forall c :: c in dropped.value.0.columns ==> TooManyMissing(c, train.rows, threshold);
  }

  /** A required column missing from the cleaned train split fails
      validation as a train failure, before the test split's required
      columns, the column counts or drift are examined. */
  lemma RequiredOnTrainBeforeTest(schema: Schema, threshold: real, train: Frame, test: Frame,
                                  ks: (seq<Cell>, seq<Cell>) -> real, n: string)
    requires WellFormed(train) && WellFormed(test)
    requires forall d :: d in schema.dropColumns ==> HasColumn(train, d) && HasColumn(test, d)
    requires exists c :: c in train.columns && Survives(c, schema.dropColumns, train.rows, threshold)
    requires exists c :: c in test.columns && Survives(c, schema.dropColumns, test.rows, threshold)
    requires n in schema.requiredColumns
    requires forall c :: c in train.columns && c.name == n ==> !Survives(c, schema.dropColumns, train.rows, threshold)
    ensures Validate(schema, threshold, train, test, ks) == Failure(RequiredColumnsMissing(TrainSplit))
  {
    CleanSucceeds(schema.dropColumns, threshold, train, test);
    NoSurvivorNamed(train, schema.dropColumns, threshold, n);
    FailsOnTrainRequired(schema, threshold, train, test, ks, n);
  }

  /** Both drops succeed when the drop columns are present and each split
      has a surviving column. */
  lemma CleanSucceeds(drop: seq<string>, threshold: real, train: Frame, test: Frame)
    requires WellFormed(train) && WellFormed(test)
    requires forall d :: d in drop ==> HasColumn(train, d) && HasColumn(test, d)
    requires exists c :: c in train.columns && Survives(c, drop, train.rows, threshold)
    requires exists c :: c in test.columns && Survives(c, drop, test.rows, threshold)
    ensures Clean(drop, threshold, train, test).Success?
  {
    var c1 :| c1 in train.columns && Survives(c1, drop, train.rows, threshold);
    var c2 :| c2 in test.columns && Survives(c2, drop, test.rows, threshold);
    assert c1 in Survivors(train, drop, threshold) && c2 in Survivors(test, drop, threshold);
  }

  /** A name none of whose columns survive names no survivor. */
  lemma NoSurvivorNamed(f: Frame, drop: seq<string>, threshold: real, n: string)
    requires forall c :: c in f.columns && c.name == n ==> !Survives(c, drop, f.rows, threshold)
    ensures n !in Names(Survivors(f, drop, threshold))
  {
    var st := Survivors(f, drop, threshold);
    forall k | 0 <= k < |st|
      ensures Names(st)[k] != n
    {
      assert st[k] in st;
    }
  }

  /** Once both drops succeed, a required column that is not a surviving
      train column fails validation on the train split. */
  lemma FailsOnTrainRequired(schema: Schema, threshold: real, train: Frame, test: Frame,
                             ks: (seq<Cell>, seq<Cell>) -> real, n: string)
    requires WellFormed(train) && WellFormed(test)
    requires Clean(schema.dropColumns, threshold, train, test).Success?
    requires n in schema.requiredColumns && n !in Names(Survivors(train, schema.dropColumns, threshold))
    ensures Validate(schema, threshold, train, test, ks) == Failure(RequiredColumnsMissing(TrainSplit))
  {
    var m := Clean(schema.dropColumns, threshold, train, test).value;
    assert !HasColumn(m.train, n);
  }

  /** With every required column surviving in both splits, different
      numbers of surviving columns fail validation, and the drift table is
      never built. */
  lemma ColumnCountBeforeDrift(schema: Schema, threshold: real, train: Frame, test: Frame,
                               ks: (seq<Cell>, seq<Cell>) -> real)
    requires WellFormed(train) && WellFormed(test)
    requires Clean(schema.dropColumns, threshold, train, test).Success?
    requires var st := Survivors(train, schema.dropColumns, threshold);
      var ss := Survivors(test, schema.dropColumns, threshold);
      && (forall n :: n in schema.requiredColumns ==> n in Names(st) && n in Names(ss))
      && |st| != |ss|
    ensures Validate(schema, threshold, train, test, ks) == Failure(ColumnCountMismatch(
      |Survivors(train, schema.dropColumns, threshold)|, |Survivors(test, schema.dropColumns, threshold)|))
  {
  }

  /** `initiate_data_validation`: reads the two ingested splits, runs the
      checks, and only when all pass writes the report and the cleaned
      splits and returns an artifact with status true. */
  function InitiateDataValidation(cfg: DataValidationConfig, schema: Schema, ingestion: DataIngestionArtifact,
                                  fs: FileSystem, ks: (seq<Cell>, seq<Cell>) -> real)
    : (r: Result<(DataValidationArtifact, FileSystem), Error>)
    requires Sound(fs)
    ensures r.Success? ==> r.value.0 == DataValidationArtifact(
      cfg.reportFileName, cfg.validTrainFilePath, cfg.validTestFilePath, true)
    ensures r.Success? ==> ReadCsv(fs, ingestion.trainFilePath).Success?
    ensures r.Success? ==> ReadCsv(fs, ingestion.testFilePath).Success?
    ensures r.Success? ==> Validate(schema, cfg.missingThreshold, ReadCsv(fs, ingestion.trainFilePath).value,
                                    ReadCsv(fs, ingestion.testFilePath).value, ks).Success?
    ensures r.Success? ==> Sound(r.value.1)
    ensures r.Success? ==> r.value.1.Keys == fs.Keys + {cfg.reportFileName, cfg.validTrainFilePath, cfg.validTestFilePath}
    ensures r.Success? ==> forall p :: p in fs && p !in {cfg.reportFileName, cfg.validTrainFilePath, cfg.validTestFilePath} ==>
      r.value.1[p] == fs[p]
    ensures r.Success? ==> r.value.1 == Written(fs, cfg, Validate(schema, cfg.missingThreshold,
      ReadCsv(fs, ingestion.trainFilePath).value, ReadCsv(fs, ingestion.testFilePath).value, ks).value)
  {
    var train :- ReadCsv(fs, ingestion.trainFilePath);
    var test :- ReadCsv(fs, ingestion.testFilePath);
    var v :- Validate(schema, cfg.missingThreshold, train, test, ks);
    Success((DataValidationArtifact(cfg.reportFileName, cfg.validTrainFilePath, cfg.validTestFilePath, true),
             Written(fs, cfg, v)))
  }

  /** The file system after the report and the cleaned splits are written. */
  function Written(fs: FileSystem, cfg: DataValidationConfig, v: Validated): (fs': FileSystem)
    requires Sound(fs) && WellFormed(v.train) && WellFormed(v.test)
    ensures Sound(fs')
    ensures fs'.Keys == fs.Keys + {cfg.reportFileName, cfg.validTrainFilePath, cfg.validTestFilePath}
    ensures forall p :: p in fs && p !in {cfg.reportFileName, cfg.validTrainFilePath, cfg.validTestFilePath} ==>
      fs'[p] == fs[p]
    ensures fs'[cfg.validTestFilePath] == CsvFile(v.test)
    ensures cfg.validTrainFilePath != cfg.validTestFilePath ==> fs'[cfg.validTrainFilePath] == CsvFile(v.train)
    ensures cfg.reportFileName != cfg.validTrainFilePath && cfg.reportFileName != cfg.validTestFilePath ==>
      fs'[cfg.reportFileName] == ReportFile(v.report)
  {
    fs[cfg.reportFileName := ReportFile(v.report)]
      [cfg.validTrainFilePath := CsvFile(v.train)]
      [cfg.validTestFilePath := CsvFile(v.test)]
  }
}
