/** Data frames as the pipeline sees them after `pandas.read_csv`: an ordered
    list of named columns of equal length, each cell a value or missing (NaN),
    plus the numeric arrays (`numpy`) the later stages exchange and the
    validation report that is written as YAML. */
module Tables {
  import opened Wrappers

  /** A CSV cell that pandas parsed: a number or a piece of text. */
  datatype Value = Num(x: real) | Text(s: string)

  /** A cell that may be missing (NaN in pandas). */
  type Cell = Option<Value>

  datatype Column = Column(name: string, cells: seq<Cell>)

  /** `rows` is `df.shape[0]`; it is kept separately because a frame whose
      columns have all been dropped still has its rows. */
  datatype Frame = Frame(rows: nat, columns: seq<Column>)

  /** A two-dimensional numpy array, row by row. */
  type Matrix = seq<seq<real>>

  predicate Distinct<T(==)>(xs: seq<T>) {
    forall i, j :: 0 <= i < j < |xs| ==> xs[i] != xs[j]
  }

  function Names(cols: seq<Column>): (ns: seq<string>)
    ensures |ns| == |cols|
    ensures forall i :: 0 <= i < |cols| ==> ns[i] == cols[i].name
  {
    seq(|cols|, i requires 0 <= i < |cols| => cols[i].name)
  }

  /** What pandas guarantees of every frame read from a CSV file: every
      column has one cell per row and column labels are unique. */
  predicate WellFormed(f: Frame) {
    && (forall i :: 0 <= i < |f.columns| ==> |f.columns[i].cells| == f.rows)
    && Distinct(Names(f.columns))
  }

  predicate HasColumn(f: Frame, name: string) {
    name in Names(f.columns)
  }

  /** `df[name]`, or `None` where pandas raises `KeyError`. */
  function Lookup(cols: seq<Column>, name: string): (r: Option<Column>)
    ensures r.Some? <==> name in Names(cols)
    ensures r.Some? ==> r.value in cols && r.value.name == name
  {
    if |cols| == 0 then None
    else if cols[0].name == name then Some(cols[0])
    else Lookup(cols[1..], name)
  }

  /** In a frame with unique labels, the column found by name is the one at
      that name's position. */
  lemma {:induction false} LookupDistinct(cols: seq<Column>, k: nat)
    requires k < |cols| && Distinct(Names(cols))
    ensures Lookup(cols, cols[k].name) == Some(cols[k])
  {
    if k > 0 {
      assert Names(cols)[0] != Names(cols)[k];
      assert Names(cols[1..]) == Names(cols)[1..];
      assert cols[1..][k - 1] == cols[k];
      LookupDistinct(cols[1..], k - 1);
    }
  }

  /** `df[name].isna().sum()`. */
  function NullCount(cells: seq<Cell>): (n: nat)
    ensures n <= |cells|
    ensures n == 0 <==> forall i :: 0 <= i < |cells| ==> cells[i].Some?
  {
    if |cells| == 0 then 0
    else (if cells[0].None? then 1 else 0) + NullCount(cells[1..])
  }

  // ---------------------------------------------------------------------
  // Order-preserving selection

  /** `xs` is what remains of `ys` after deleting some of its elements. */
  predicate SubsequenceOf<T(==)>(xs: seq<T>, ys: seq<T>)
    decreases |ys|
  {
    || |xs| == 0
    || (&& |ys| > 0
        && (|| SubsequenceOf(xs, ys[1..])
            || (xs[0] == ys[0] && SubsequenceOf(xs[1..], ys[1..]))))
  }

  /** Every element of a subsequence is an element of the whole. */
  lemma {:induction false} SubsequenceMembers<T>(xs: seq<T>, ys: seq<T>)
    requires SubsequenceOf(xs, ys)
    ensures forall x :: x in xs ==> x in ys
    decreases |ys|
  {
    if |xs| > 0 {
      if SubsequenceOf(xs, ys[1..]) {
        SubsequenceMembers(xs, ys[1..]);
      } else {
        SubsequenceMembers(xs[1..], ys[1..]);
        assert xs == [xs[0]] + xs[1..];
      }
    }
  }

  lemma {:induction false} SubsequenceTransitive<T>(xs: seq<T>, ys: seq<T>, zs: seq<T>)
    requires SubsequenceOf(xs, ys) && SubsequenceOf(ys, zs)
    ensures SubsequenceOf(xs, zs)
    decreases |zs|
  {
    if |xs| > 0 {
      if SubsequenceOf(ys, zs[1..]) {
        SubsequenceTransitive(xs, ys, zs[1..]);
      } else if SubsequenceOf(xs, ys[1..]) {
        SubsequenceTransitive(xs, ys[1..], zs[1..]);
      } else {
        SubsequenceTransitive(xs[1..], ys[1..], zs[1..]);
      }
    }
  }

  /** In a sequence without repetitions, a subsequence is determined by its
      elements: two selections with the same members are the same. */
  lemma {:induction false} SubsequenceDetermined<T>(xs: seq<T>, ys: seq<T>, zs: seq<T>)
    requires Distinct(zs) && SubsequenceOf(xs, zs) && SubsequenceOf(ys, zs)
    requires forall x :: x in xs <==> x in ys
    ensures xs == ys
    decreases |zs|
  {
    if |zs| > 0 {
      var z := zs[0];
      var rest := zs[1..];
      assert Distinct(rest) by {
        forall i, j | 0 <= i < j < |rest|
          ensures rest[i] != rest[j]
        {
          assert rest[i] == zs[i + 1] && rest[j] == zs[j + 1];
        }
      }
      assert z !in rest by {
        forall k | 0 <= k < |rest|
          ensures rest[k] != z
        {
          assert rest[k] == zs[k + 1];
        }
      }
      if z in xs {
        assert !SubsequenceOf(xs, rest) by {
          if SubsequenceOf(xs, rest) {
            SubsequenceMembers(xs, rest);
          }
        }
        assert !SubsequenceOf(ys, rest) by {
          if SubsequenceOf(ys, rest) {
            SubsequenceMembers(ys, rest);
          }
        }
        assert xs == [z] + xs[1..] && ys == [z] + ys[1..];
        SubsequenceMembers(xs[1..], rest);
        SubsequenceMembers(ys[1..], rest);
        forall x
          ensures x in xs[1..] <==> x in ys[1..]
        {
          if x in xs[1..] {
            assert x in xs && x in rest && x != z;
            assert x in ys;
          }
          if x in ys[1..] {
            assert x in ys && x in rest && x != z;
            assert x in xs;
          }
        }
        SubsequenceDetermined(xs[1..], ys[1..], rest);
      } else {
        assert |xs| > 0 ==> xs[0] in xs;
        assert |ys| > 0 ==> ys[0] in ys;
        SubsequenceDetermined(xs, ys, rest);
      }
    }
  }

  /** Columns with unique labels are themselves unique. */
  lemma DistinctColumns(cols: seq<Column>)
    requires Distinct(Names(cols))
    ensures Distinct(cols)
  {
    forall i, j | 0 <= i < j < |cols|
      ensures cols[i] != cols[j]
    {
      assert Names(cols)[i] != Names(cols)[j];
    }
  }

  /** The elements of `xs` that satisfy `keep`, in their original order. */
  function Filter<T(==,!new)>(xs: seq<T>, keep: T -> bool): (r: seq<T>)
    ensures forall x :: x in r <==> x in xs && keep(x)
    ensures SubsequenceOf(r, xs)
  {
    if |xs| == 0 then []
    else if keep(xs[0]) then [xs[0]] + Filter(xs[1..], keep)
    else Filter(xs[1..], keep)
  }

  /** Keeping a subset of a frame's columns keeps their labels unique. */
  lemma {:induction false} FilterKeepsNamesDistinct(cols: seq<Column>, keep: Column -> bool)
    requires Distinct(Names(cols))
    ensures Distinct(Names(Filter(cols, keep)))
  {
    if |cols| > 0 {
      assert Names(cols[1..]) == Names(cols)[1..];
      FilterKeepsNamesDistinct(cols[1..], keep);
      var rest := Filter(cols[1..], keep);
      if keep(cols[0]) {
        var r := [cols[0]] + rest;
        forall i, j | 0 <= i < j < |r|
          ensures Names(r)[i] != Names(r)[j]
        {
          if i == 0 {
            assert r[j] in cols[1..];
            var k :| 0 <= k < |cols[1..]| && cols[1..][k] == r[j];
            assert Names(cols)[k + 1] == r[j].name;
          } else {
            assert Names(r)[i] == Names(rest)[i - 1];
            assert Names(r)[j] == Names(rest)[j - 1];
          }
        }
      }
    }
  }

  /** A frame restricted to the columns that satisfy `keep`, rows untouched. */
  function SelectColumns(f: Frame, keep: Column -> bool): (g: Frame)
    requires WellFormed(f)
    ensures WellFormed(g) && g.rows == f.rows
    ensures forall c :: c in g.columns <==> c in f.columns && keep(c)
    ensures SubsequenceOf(g.columns, f.columns)
  {
    FilterKeepsNamesDistinct(f.columns, keep);
    var kept := Filter(f.columns, keep);
    forall i | 0 <= i < |kept|
      ensures |kept[i].cells| == f.rows
    {
      assert kept[i] in f.columns;
    }
    Frame(f.rows, kept)
  }

  // ---------------------------------------------------------------------
  // Validation report (`self.validation_error`, dumped as YAML)

  datatype DriftStat = DriftStat(pValue: real, sameDistribution: bool)

  datatype DriftEntry = DriftEntry(column: string, stat: DriftStat)

  /** A report value: a list of column names, or the per-column drift table. */
  datatype Finding = ColumnList(names: seq<string>) | DriftReport(entries: seq<DriftEntry>)

  type Report = map<string, Finding>
}
