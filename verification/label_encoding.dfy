/** The target encoder the transformation stage fits (`LabelEncoder`):
    `fit` keeps the distinct labels in sorted order (`classes_`), `transform`
    replaces each label by its position in that list and raises on a label
    that was not seen during `fit`, and `inverse_transform` maps positions
    back to labels. */
module LabelEncoding {
  import opened Wrappers
  import opened Tables
  import opened Errors

  /** numpy's order on strings: code point by code point, a proper prefix
      first. */
  predicate TextBelow(a: string, b: string)
    decreases |a|
  {
    if |a| == 0 then |b| > 0
    else if |b| == 0 then false
    else if a[0] != b[0] then a[0] < b[0]
    else TextBelow(a[1..], b[1..])
  }

  lemma {:induction false} TextBelowIrreflexive(a: string)
    ensures !TextBelow(a, a)
    decreases |a|
  {
    if |a| > 0 {
      TextBelowIrreflexive(a[1..]);
    }
  }

  lemma {:induction false} TextBelowTransitive(a: string, b: string, c: string)
    requires TextBelow(a, b) && TextBelow(b, c)
    ensures TextBelow(a, c)
    decreases |a|
  {
    if |a| > 0 && a[0] == b[0] && b[0] == c[0] {
      TextBelowTransitive(a[1..], b[1..], c[1..]);
    }
  }

  lemma {:induction false} TextBelowTotal(a: string, b: string)
    requires a != b
    ensures TextBelow(a, b) || TextBelow(b, a)
    decreases |a|
  {
    if |a| > 0 && |b| > 0 && a[0] == b[0] {
      assert a == [a[0]] + a[1..] && b == [b[0]] + b[1..];
      TextBelowTotal(a[1..], b[1..]);
    }
  }

  /** Labels of one kind compare as numpy compares them. Numbers before text
      is only a tie-breaker: a target mixing the two is refused before any
      comparison (numpy cannot order such an array). */
  predicate Below(a: Value, b: Value) {
    match (a, b)
    case (Num(x), Num(y)) => x < y
    case (Text(s), Text(t)) => TextBelow(s, t)
    case (Num(_), Text(_)) => true
    case (Text(_), Num(_)) => false
  }

  lemma BelowIsStrictTotalOrder(a: Value, b: Value, c: Value)
    ensures !Below(a, a)
    ensures Below(a, b) && Below(b, c) ==> Below(a, c)
    ensures a != b ==> Below(a, b) || Below(b, a)
  {
    if a.Text? {
      TextBelowIrreflexive(a.s);
      if b.Text? && c.Text? && Below(a, b) && Below(b, c) {
        TextBelowTransitive(a.s, b.s, c.s);
      }
      if b.Text? && a != b {
        TextBelowTotal(a.s, b.s);
      }
    }
  }

  predicate StrictlySorted(xs: seq<Value>) {
    forall i, j :: 0 <= i < j < |xs| ==> Below(xs[i], xs[j])
  }

  lemma SortedIsDistinct(xs: seq<Value>)
    requires StrictlySorted(xs)
    ensures Distinct(xs)
  {
    forall i, j | 0 <= i < j < |xs|
      ensures xs[i] != xs[j]
    {
      BelowIsStrictTotalOrder(xs[i], xs[j], xs[j]);
    }
  }

  /** Inserts `v` into a sorted list of distinct labels. */
  function Insert(xs: seq<Value>, v: Value): (r: seq<Value>)
    requires StrictlySorted(xs)
    ensures StrictlySorted(r)
    ensures forall x :: x in r <==> x in xs || x == v
  {
    if |xs| == 0 then [v]
    else if v == xs[0] then xs
    else if Below(v, xs[0]) then
      forall j | 0 <= j < |xs|
        ensures Below(v, xs[j])
      {
        BelowIsStrictTotalOrder(v, xs[0], xs[j]);
      }
      [v] + xs
    else
      var rest := Insert(xs[1..], v);
      BelowIsStrictTotalOrder(xs[0], v, v);
      assert Below(xs[0], v) by {
        BelowIsStrictTotalOrder(v, xs[0], v);
      }
      forall k | 0 <= k < |rest|
        ensures Below(xs[0], rest[k])
      {
        assert rest[k] in xs[1..] || rest[k] == v;
      }
      [xs[0]] + rest
  }

  /** `np.unique`: the distinct values in ascending order. */
  function SortedUnique(vs: seq<Value>): (r: seq<Value>)
    ensures StrictlySorted(r)
    ensures forall x :: x in r <==> x in vs
  {
    if |vs| == 0 then []
    else Insert(SortedUnique(vs[..|vs| - 1]), vs[|vs| - 1])
  }

  /** A target column numpy can order: no missing value and one kind of
      value throughout. */
  predicate Orderable(cells: seq<Cell>) {
    && (forall i :: 0 <= i < |cells| ==> cells[i].Some?)
    && ((forall i :: 0 <= i < |cells| ==> cells[i].value.Num?)
        || (forall i :: 0 <= i < |cells| ==> cells[i].value.Text?))
  }

  function Present(cells: seq<Cell>): (vs: seq<Value>)
    requires forall i :: 0 <= i < |cells| ==> cells[i].Some?
    ensures |vs| == |cells| && forall i :: 0 <= i < |cells| ==> vs[i] == cells[i].value
  {
    seq(|cells|, i requires 0 <= i < |cells| => cells[i].value)
  }

  /** The fitted encoder: `classes_`. */
  datatype LabelEncoder = LabelEncoder(classes: seq<Value>)

  /** `LabelEncoder().fit(y)`: the classes are exactly the labels of `y`, in
      ascending order. */
  function Fit(y: seq<Cell>): (r: Result<LabelEncoder, Error>)
    ensures r.Success? <==> Orderable(y)
    ensures r.Failure? ==> r.error == UnorderableLabels
    ensures r.Success? ==> StrictlySorted(r.value.classes)
    ensures r.Success? ==> forall v :: v in r.value.classes <==> Some(v) in y
  {
    if Orderable(y) then
      var labels := Present(y);
      assert forall v :: v in labels <==> Some(v) in y by {
        forall v | Some(v) in y
          ensures v in labels
        {
          var i :| 0 <= i < |y| && y[i] == Some(v);
          assert labels[i] == v;
        }
      }
      Success(LabelEncoder(SortedUnique(labels)))
    else Failure(UnorderableLabels)
  }

  /** The position of `v` in a list of distinct labels. */
  function IndexOf(classes: seq<Value>, v: Value): (k: nat)
    requires v in classes
    ensures k < |classes| && classes[k] == v
  {
    if classes[0] == v then 0 else 1 + IndexOf(classes[1..], v)
  }

  /** `encoder.transform(y)`: each label's position among the classes; the
      first label that is missing or not a class raises. */
  function Transform(enc: LabelEncoder, y: seq<Cell>): (r: Result<seq<nat>, Error>)
    ensures r.Success? <==> forall i :: 0 <= i < |y| ==> y[i].Some? && y[i].value in enc.classes
    ensures r.Success? ==> |r.value| == |y|
    ensures r.Success? ==> forall i :: 0 <= i < |y| ==>
      r.value[i] < |enc.classes| && Some(enc.classes[r.value[i]]) == y[i]
  {
    if |y| == 0 then Success([])
    else match y[0]
      case None => Failure(UnorderableLabels)
      case Some(v) =>
        if v !in enc.classes then Failure(UnseenLabel(v))
        else
          var rest :- Transform(enc, y[1..]);
          Success([IndexOf(enc.classes, v)] + rest)
  }

  /** `encoder.inverse_transform(codes)`: raises on a code that is not a
      class position. */
  function InverseTransform(enc: LabelEncoder, codes: seq<nat>): (r: Result<seq<Value>, Error>)
    ensures r.Success? <==> forall i :: 0 <= i < |codes| ==> codes[i] < |enc.classes|
    ensures r.Success? ==> |r.value| == |codes|
    ensures r.Success? ==> forall i :: 0 <= i < |codes| ==> r.value[i] == enc.classes[codes[i]]
  {
    if forall i :: 0 <= i < |codes| ==> codes[i] < |enc.classes| then
      Success(seq(|codes|, i requires 0 <= i < |codes| => enc.classes[codes[i]]))
    else Failure(UnknownCode)
  }

  /** Every label of the column the encoder was fitted on can be encoded. */
  lemma FittedLabelsEncode(y: seq<Cell>)
    requires Fit(y).Success?
    ensures Transform(Fit(y).value, y).Success?
  {
    var enc := Fit(y).value;
    forall i | 0 <= i < |y|
      ensures y[i].Some? && y[i].value in enc.classes
    {
      assert Some(y[i].value) in y;
    }
  }

  /** Decoding the codes of a column gives back its labels. */
  lemma EncodeDecodeRoundTrip(enc: LabelEncoder, y: seq<Cell>)
    requires Transform(enc, y).Success?
    ensures InverseTransform(enc, Transform(enc, y).value).Success?
    ensures var labels := InverseTransform(enc, Transform(enc, y).value).value;
      |labels| == |y| && forall i :: 0 <= i < |y| ==> Some(labels[i]) == y[i]
  {
  }

  /** Distinct labels get distinct codes, so the encoding loses nothing. */
  lemma CodesInjective(enc: LabelEncoder, y: seq<Cell>, i: nat, j: nat)
    requires StrictlySorted(enc.classes)
    requires Transform(enc, y).Success?
    requires i < |y| && j < |y|
    ensures Transform(enc, y).value[i] == Transform(enc, y).value[j] <==> y[i] == y[j]
  {
    var codes := Transform(enc, y).value;
    SortedIsDistinct(enc.classes);
  }
}
