/** The pandas edge list wrappers: an edge set and an edge map stored as a
    data frame with a source column, a target column and (for the map) a
    weight column, together with their node count, their abstract property
    computation and their equality assertions. */
module PandasTypes {
  import opened Results
  import opened Collections
  import AbstractTypes

  /** The column dtypes, already simplified to the four dtype choices. */
  datatype Dtype = StrType | FloatType | IntType | BoolType

  /** A cell value. Floats are mathematical reals: rounding and NaN are not
      modelled. */
  datatype Scalar = Str(s: string) | Int(i: int) | Float(x: real) | Bool(b: bool)

  /** The cell belongs to a column of dtype `d`. */
  predicate Fits(d: Dtype, v: Scalar) {
    match d
    case StrType => v.Str?
    case FloatType => v.Float?
    case IntType => v.Int?
    case BoolType => v.Bool?
  }

  /** A column: its dtype and its cells, top to bottom. */
  datatype Column = Column(dtype: Dtype, cells: seq<Scalar>)

  /** A data frame: labelled columns of one common height. Rows carry the
      default row index, so rows are told apart by position only. */
  datatype RawFrame = RawFrame(columns: map<string, Column>, height: nat)

  predicate FrameOk(f: RawFrame) {
    forall l :: l in f.columns ==>
      && |f.columns[l].cells| == f.height
      && forall i :: 0 <= i < f.height ==> Fits(f.columns[l].dtype, f.columns[l].cells[i])
  }

  /** Every `pd.DataFrame` is rectangular and its columns are homogeneous. */
  type Frame = f: RawFrame | FrameOk(f) witness RawFrame(map[], 0)

  /** `dtypes.dtypes_simplified`: the dtype's name among the four choices. */
  function DtypeName(d: Dtype): (n: string)
    ensures AbstractTypes.Choice(n) in AbstractTypes.DtypeChoices
  {
    match d
    case StrType => "str"
    case FloatType => "float"
    case IntType => "int"
    case BoolType => "bool"
  }

  /** Distinct dtypes have distinct names. */
  lemma DtypeNameInjective(d: Dtype, e: Dtype)
    ensures DtypeName(d) == DtypeName(e) <==> d == e
  {
  }

  /** One row of the (source, target) MultiIndex. */
  datatype Edge = Edge(src: Scalar, dst: Scalar)

  /** `df.set_index([src, dst]).index`: the (source, target) key of every
      row, in row order. */
  function EdgeIndex(f: Frame, src: string, dst: string): (r: seq<Edge>)
    requires src in f.columns && dst in f.columns
    ensures |r| == f.height
  {
    seq(f.height, i requires 0 <= i < f.height => Edge(f.columns[src].cells[i], f.columns[dst].cells[i]))
  }

  /** The failed `_assert` of a constructor: the label that is not a column. */
  datatype WrapperError = LabelNotFound(missing: string)

  /** The attributes a `PandasEdgeSet` keeps. */
  datatype EdgeSetRecord = EdgeSetRecord(value: Frame, srcLabel: string, dstLabel: string, isDirected: bool)
  {
    predicate Valid() {
      srcLabel in value.columns && dstLabel in value.columns
    }
  }

  /** A constructed `PandasEdgeSet`: its labels name columns of its frame. */
  type PandasEdgeSet = s: EdgeSetRecord | s.Valid()
    witness EdgeSetRecord(RawFrame(map["source" := Column(IntType, [])], 0), "source", "source", true)

  /** The attributes a `PandasEdgeMap` keeps. */
  datatype EdgeMapRecord = EdgeMapRecord(value: Frame, srcLabel: string, dstLabel: string, weightLabel: string, isDirected: bool)
  {
    predicate Valid() {
      srcLabel in value.columns && dstLabel in value.columns && weightLabel in value.columns
    }
  }

  /** A constructed `PandasEdgeMap`: its three labels name columns. */
  type PandasEdgeMap = m: EdgeMapRecord | m.Valid()
    witness EdgeMapRecord(RawFrame(map["source" := Column(IntType, [])], 0), "source", "source", "source", true)

  /** `PandasEdgeSet(df, src_label, dst_label, is_directed=...)`. */
  function NewEdgeSet(df: Frame, src: string, dst: string, isDirected: bool): (r: Result<PandasEdgeSet, WrapperError>)
    ensures r.Ok? <==> src in df.columns && dst in df.columns
    ensures r.Err? ==> r.error == LabelNotFound(if src !in df.columns then src else dst)
    ensures r.Ok? ==> r.value.value == df && r.value.srcLabel == src && r.value.dstLabel == dst
                      && r.value.isDirected == isDirected
  {
    if src !in df.columns then Err(LabelNotFound(src))
    else if dst !in df.columns then Err(LabelNotFound(dst))
    else Ok(EdgeSetRecord(df, src, dst, isDirected))
  }

  /** `PandasEdgeMap(df, src_label, dst_label, weight_label, is_directed=...)`. */
  function NewEdgeMap(df: Frame, src: string, dst: string, weight: string, isDirected: bool): (r: Result<PandasEdgeMap, WrapperError>)
    ensures r.Ok? <==> src in df.columns && dst in df.columns && weight in df.columns
    ensures r.Err? ==> r.error == LabelNotFound(if src !in df.columns then src
                                                 else if dst !in df.columns then dst else weight)
    ensures r.Ok? ==> r.value.value == df && r.value.srcLabel == src && r.value.dstLabel == dst
                      && r.value.weightLabel == weight && r.value.isDirected == isDirected
  {
    if src !in df.columns then Err(LabelNotFound(src))
    else if dst !in df.columns then Err(LabelNotFound(dst))
    else if weight !in df.columns then Err(LabelNotFound(weight))
    else Ok(EdgeMapRecord(df, src, dst, weight, isDirected))
  }

  /** An edge map built from the same frame and labels as an edge set is
      accepted exactly when the edge set is and the weight label is a
      column too. */
  lemma EdgeMapNeedsEdgeSet(df: Frame, src: string, dst: string, weight: string, isDirected: bool)
    ensures NewEdgeMap(df, src, dst, weight, isDirected).Ok? <==>
            NewEdgeSet(df, src, dst, isDirected).Ok? && weight in df.columns
  {
  }

  function SetIndex(s: PandasEdgeSet): seq<Edge> {
    EdgeIndex(s.value, s.srcLabel, s.dstLabel)
  }

  function MapIndex(m: PandasEdgeMap): seq<Edge> {
    EdgeIndex(m.value, m.srcLabel, m.dstLabel)
  }

  /** Every value that occurs at either end of some edge of `keys`. */
  function Endpoints(keys: seq<Edge>): set<Scalar> {
    (set i | 0 <= i < |keys| :: keys[i].src) + (set i | 0 <= i < |keys| :: keys[i].dst)
  }

  /** The distinct source values are the sources of the index's edges. */
  lemma SrcLevel(cells: seq<Scalar>, keys: seq<Edge>)
    requires |cells| == |keys| && forall i :: 0 <= i < |keys| ==> keys[i].src == cells[i]
    ensures Elems(cells) == set i | 0 <= i < |keys| :: keys[i].src
  {
    forall v | v in Elems(cells) ensures v in set i | 0 <= i < |keys| :: keys[i].src {
      var i :| 0 <= i < |cells| && cells[i] == v;
      assert keys[i].src == v;
    }
  }

  /** The distinct target values are the targets of the index's edges. */
  lemma DstLevel(cells: seq<Scalar>, keys: seq<Edge>)
    requires |cells| == |keys| && forall i :: 0 <= i < |keys| ==> keys[i].dst == cells[i]
    ensures Elems(cells) == set i | 0 <= i < |keys| :: keys[i].dst
  {
    forall v | v in Elems(cells) ensures v in set i | 0 <= i < |keys| :: keys[i].dst {
      var i :| 0 <= i < |cells| && cells[i] == v;
      assert keys[i].dst == v;
    }
  }

  /** Two levels of at most `n` values each, non-empty when `n` is. */
  lemma UnionBound(a: seq<Scalar>, b: seq<Scalar>, n: nat)
    requires |a| == n && |b| == n
    ensures |Elems(a) + Elems(b)| <= 2 * n
    ensures n > 0 ==> |Elems(a) + Elems(b)| > 0
  {
    assert |Elems(a) + Elems(b)| <= |Elems(a)| + |Elems(b)|;
    if n > 0 {
      assert a[0] in Elems(a) + Elems(b);
    }
  }

  /** The two levels of the index hold exactly the endpoints of its
      edges, and there are at most two per edge. */
  lemma LevelsAreEndpoints(f: Frame, src: string, dst: string)
    requires src in f.columns && dst in f.columns
    ensures Elems(f.columns[src].cells) + Elems(f.columns[dst].cells) == Endpoints(EdgeIndex(f, src, dst))
    ensures |Elems(f.columns[src].cells) + Elems(f.columns[dst].cells)| <= 2 * f.height
    ensures f.height > 0 ==> |Elems(f.columns[src].cells) + Elems(f.columns[dst].cells)| > 0
  {
    var keys := EdgeIndex(f, src, dst);
    SrcLevel(f.columns[src].cells, keys);
    DstLevel(f.columns[dst].cells, keys);
    UnionBound(f.columns[src].cells, f.columns[dst].cells, f.height);
  }

  /** `len(src_nodes | dst_nodes)` over the two levels of the index: the
      distinct values of the source column joined with those of the
      target column. */
  function LevelUnionSize(f: Frame, src: string, dst: string): (n: nat)
    requires src in f.columns && dst in f.columns
    ensures n == |Endpoints(EdgeIndex(f, src, dst))|
    ensures n <= 2 * f.height
    ensures f.height > 0 ==> n > 0
  {
    LevelsAreEndpoints(f, src, dst);
    |Elems(f.columns[src].cells) + Elems(f.columns[dst].cells)|
  }

  /** `PandasEdgeSet.num_nodes`. */
  function EdgeSetNumNodes(s: PandasEdgeSet): (n: nat)
    ensures n == |Endpoints(SetIndex(s))|
    ensures n <= 2 * s.value.height
  {
    LevelUnionSize(s.value, s.srcLabel, s.dstLabel)
  }

  /** `PandasEdgeMap.num_nodes`. */
  function EdgeMapNumNodes(m: PandasEdgeMap): (n: nat)
    ensures n == |Endpoints(MapIndex(m))|
    ensures n <= 2 * m.value.height
  {
    LevelUnionSize(m.value, m.srcLabel, m.dstLabel)
  }

  /** `PandasEdgeMap.to_edgeset`: the same frame and end labels, and the
      constructor's default `is_directed=True` whatever the map's own
      directedness. */
  function ToEdgeSet(m: PandasEdgeMap): (r: Result<PandasEdgeSet, WrapperError>)
    ensures r.Ok?
    ensures r.value.value == m.value && r.value.srcLabel == m.srcLabel && r.value.dstLabel == m.dstLabel
    ensures r.value.isDirected
    ensures SetIndex(r.value) == MapIndex(m)
    ensures EdgeSetNumNodes(r.value) == EdgeMapNumNodes(m)
  {
    NewEdgeSet(m.value, m.srcLabel, m.dstLabel, true)
  }

  /** The conversion loses undirectedness: an undirected map becomes a
      directed edge set. */
  lemma ToEdgeSetForgetsUndirected(m: PandasEdgeMap)
    requires !m.isDirected
    ensures ToEdgeSet(m).value.isDirected != m.isDirected
  {
  }

  // ---------------------------------------------------------------------
  // Abstract properties

  /** What `compute_abstract_properties` raises. */
  datatype PropError =
    | /** `_validate_abstract_props` rejected a requested name. */
      UnknownProperty(name: string)
    | /** `min_val < 0` compared a string with an integer. */
      WeightTypeError

  /** The numeric dtypes: the ones whose minimum compares with zero. */
  predicate Numeric(d: Dtype) {
    d == FloatType || d == IntType
  }

  /** The numeric value numpy compares a non-string cell by. */
  function Num(v: Scalar): real
    requires !v.Str?
  {
    match v
    case Int(i) => i as real
    case Float(x) => x
    case Bool(b) => if b then 1.0 else 0.0
  }

  /** The numeric values of the cells of a numeric column. */
  function Nums(c: Column): (r: seq<real>)
    requires forall i :: 0 <= i < |c.cells| ==> !c.cells[i].Str?
    ensures |r| == |c.cells| && forall i :: 0 <= i < |r| ==> r[i] == Num(c.cells[i])
  {
    seq(|c.cells|, i requires 0 <= i < |c.cells| => Num(c.cells[i]))
  }

  /** `Series.min()` of a non-empty numeric series. */
  function MinOf(xs: seq<real>): (r: real)
    requires |xs| > 0
    ensures (exists i :: 0 <= i < |xs| && xs[i] == r) && forall i :: 0 <= i < |xs| ==> r <= xs[i]
    decreases |xs|
  {
    if |xs| == 1 then xs[0]
    else
      var rest := MinOf(xs[1..]);
      assert forall i :: 1 <= i < |xs| ==> xs[i] == xs[1..][i - 1];
      if xs[0] <= rest then xs[0] else rest
  }

  /** The slow `weights` property of a weight column: "any" when some
      weight is negative, "non-negative" when none is and some is zero (or
      the column is boolean), "positive" when all are. An empty column has
      a NaN minimum, which fails both comparisons; a non-empty string
      column's minimum is a string, which cannot be compared with 0. */
  function WeightSign(c: Column): (r: Result<string, PropError>)
    requires forall i :: 0 <= i < |c.cells| ==> Fits(c.dtype, c.cells[i])
    ensures c.dtype == BoolType ==> r == Ok("non-negative")
    ensures c.dtype == StrType ==> (r.Err? <==> |c.cells| > 0) && (r.Ok? ==> r.value == "positive")
    ensures r.Err? ==> r.error == WeightTypeError
    ensures Numeric(c.dtype) ==> r.Ok?
    ensures Numeric(c.dtype) ==>
      (r == Ok("any") <==> exists i :: 0 <= i < |c.cells| && !c.cells[i].Str? && Num(c.cells[i]) < 0.0)
    ensures Numeric(c.dtype) ==>
      (r == Ok("positive") <==> forall i :: 0 <= i < |c.cells| ==> !c.cells[i].Str? && Num(c.cells[i]) > 0.0)
    ensures Numeric(c.dtype) ==>
      (r == Ok("non-negative") <==>
        (forall i :: 0 <= i < |c.cells| ==> !c.cells[i].Str? && Num(c.cells[i]) >= 0.0) &&
        (exists i :: 0 <= i < |c.cells| && !c.cells[i].Str? && Num(c.cells[i]) == 0.0))
  {
    if c.dtype == BoolType then Ok("non-negative")
    else if |c.cells| == 0 then Ok("positive")
    else if c.dtype == StrType then Err(WeightTypeError)
    else
      assert forall i :: 0 <= i < |c.cells| ==> !c.cells[i].Str? by {
        forall i | 0 <= i < |c.cells| ensures !c.cells[i].Str? {
          assert Fits(c.dtype, c.cells[i]);
        }
      }
      var xs := Nums(c);
      var least := MinOf(xs);
      if least < 0.0 then Ok("any")
      else if least == 0.0 then Ok("non-negative")
      else Ok("positive")
  }

  function WeightColumn(m: PandasEdgeMap): Column {
    m.value.columns[m.weightLabel]
  }

  /** The fast properties: read from attributes and the weight column's
      dtype, without looking at any weight. */
  function FastProperties(m: PandasEdgeMap): map<string, AbstractTypes.PropValue> {
    map["is_directed" := AbstractTypes.Flag(m.isDirected),
        "dtype" := AbstractTypes.Choice(DtypeName(WeightColumn(m).dtype))]
  }

  /** The body of `compute_abstract_properties` after validation. */
  function PropertiesAfterValidation(m: PandasEdgeMap, props: seq<string>): (r: Result<map<string, AbstractTypes.PropValue>, PropError>)
    ensures r.Ok? ==> r.value.Keys == {"is_directed", "dtype"} + (if "weights" in props then {"weights"} else {})
    ensures r.Ok? ==> r.value["is_directed"] == AbstractTypes.Flag(m.isDirected)
    ensures r.Ok? ==> r.value["dtype"] == AbstractTypes.Choice(DtypeName(WeightColumn(m).dtype))
    ensures r.Err? <==> "weights" in props && WeightSign(WeightColumn(m)).Err?
    ensures r.Ok? && "weights" in props ==> r.value["weights"] == AbstractTypes.Choice(WeightSign(WeightColumn(m)).value)
  {
    var ret := FastProperties(m);
    if "weights" in props then
      match WeightSign(WeightColumn(m))
      case Err(e) => Err(e)
      case Ok(w) => Ok(ret["weights" := AbstractTypes.Choice(w)])
    else Ok(ret)
  }

  /** Laziness: unless "weights" is requested the weights themselves are
      never read, so two maps that differ only in their weight cells get
      the same answer. */
  lemma {:induction false} WeightsReadOnlyOnRequest(m1: PandasEdgeMap, m2: PandasEdgeMap, props: seq<string>)
    requires "weights" !in props
    requires m1.isDirected == m2.isDirected
    requires WeightColumn(m1).dtype == WeightColumn(m2).dtype
    ensures PropertiesAfterValidation(m1, props) == PropertiesAfterValidation(m2, props)
  {
    assert FastProperties(m1) == FastProperties(m2);
  }

  /** `PandasEdgeMap.compute_abstract_properties(obj, props, known_props)`:
      the requested names are validated against the bound abstract type
      `EdgeMap` before anything is computed. */
  function ComputeAbstractProperties(m: PandasEdgeMap, props: seq<string>): (r: Result<map<string, AbstractTypes.PropValue>, PropError>)
    ensures r.Err? <==> exists k :: 0 <= k < |props| && props[k] !in AbstractTypes.PropertyNames(AbstractTypes.EdgeMap)
    ensures r.Err? ==> r.error.UnknownProperty? && r.error.name in props
                       && r.error.name !in AbstractTypes.PropertyNames(AbstractTypes.EdgeMap)
    ensures r.Ok? ==> "is_directed" in r.value && r.value["is_directed"] == AbstractTypes.Flag(m.isDirected)
    ensures r.Ok? ==> "dtype" in r.value && r.value["dtype"] in AbstractTypes.DtypeChoices
  {
    AbstractTypes.EdgeMapPropertyNames();
    match AbstractTypes.FirstUndeclared(AbstractTypes.EdgeMap, props)
    case Some(bad) => Err(UnknownProperty(bad))
    case None => PropertiesAfterValidation(m, props)
  }

  /** Requesting "weights" always fails validation: `EdgeMap` declares
      `has_negative_weights`, not `weights`, so the slow property is out of
      reach through this entry point. */
  lemma WeightsRequestRejected(m: PandasEdgeMap, props: seq<string>)
    requires "weights" in props
    ensures ComputeAbstractProperties(m, props).Err?
    ensures ComputeAbstractProperties(m, props).error.UnknownProperty?
  {
    AbstractTypes.EdgeMapPropertyNames();
    var k :| 0 <= k < |props| && props[k] == "weights";
  }

  /** Conversely every accepted request gets exactly the two fast
      properties back: a requested `has_negative_weights` is validated but
      never answered. */
  lemma AcceptedRequestsGetFastOnly(m: PandasEdgeMap, props: seq<string>)
    requires ComputeAbstractProperties(m, props).Ok?
    ensures ComputeAbstractProperties(m, props).value == FastProperties(m)
    ensures "has_negative_weights" !in ComputeAbstractProperties(m, props).value
  {
    AbstractTypes.EdgeMapPropertyNames();
    assert "weights" !in props by {
      if "weights" in props {
        WeightsRequestRejected(m, props);
      }
    }
  }

  // ---------------------------------------------------------------------
  // Equality assertions

  /** Which `assert` of `assert_equal` failed. */
  datatype Mismatch =
    | DirectedDiffers
    | LengthDiffers
    | KeysDiffer
    | WeightsDiffer
    | /** `np.isclose` raised: float weights against string weights. */
      Incomparable

  /** `assert_equal` returns normally (`Pass`) or raises (`Fail`). */
  datatype Verdict = Pass | Fail(why: Mismatch)

  /** The three checks both `assert_equal`s begin with: directedness, row
      count, and `len(index1 & index2) == len(index1)`, the index
      intersection holding each common key once. */
  function SharedChecks(d1: bool, d2: bool, k1: seq<Edge>, k2: seq<Edge>): Verdict {
    if d1 != d2 then Fail(DirectedDiffers)
    else if |k1| != |k2| then Fail(LengthDiffers)
    else if |Elems(k1) * Elems(k2)| != |k1| then Fail(KeysDiffer)
    else Pass
  }

  /** A full intersection of two sets of at most `n` elements each means
      both have exactly `n` elements and they are equal. */
  lemma FullIntersection<T>(a: set<T>, b: set<T>, n: nat)
    requires |a| <= n && |b| <= n
    ensures |a * b| == n <==> |a| == n && |b| == n && a == b
  {
    SubsetCard(a * b, a);
    if |a * b| == n {
      SubsetSameCard(a * b, a);
      SubsetSameCard(a, b);
    }
    if a == b {
      assert a * b == a;
    }
  }

  /** The shared checks pass exactly when the directedness agrees and the
      two key lists are duplicate-free and hold the same keys. */
  lemma SharedChecksPass(d1: bool, d2: bool, k1: seq<Edge>, k2: seq<Edge>)
    ensures SharedChecks(d1, d2, k1, k2) == Pass <==>
            d1 == d2 && NoDup(k1) && NoDup(k2) && Elems(k1) == Elems(k2)
  {
    ElemsCountNoDup(k1);
    ElemsCountNoDup(k2);
    if |k1| == |k2| {
      FullIntersection(Elems(k1), Elems(k2), |k1|);
    }
  }

  /** `PandasEdgeSet.assert_equal`. The tolerances are accepted and
      ignored. */
  function EdgeSetAssertEqual(s1: PandasEdgeSet, s2: PandasEdgeSet, relTol: Option<real>, absTol: Option<real>): (r: Verdict)
    ensures r == Fail(DirectedDiffers) <==> s1.isDirected != s2.isDirected
    ensures r == Pass <==>
      s1.isDirected == s2.isDirected && NoDup(SetIndex(s1)) && NoDup(SetIndex(s2))
      && Elems(SetIndex(s1)) == Elems(SetIndex(s2))
  {
    SharedChecksPass(s1.isDirected, s2.isDirected, SetIndex(s1), SetIndex(s2));
    SharedChecks(s1.isDirected, s2.isDirected, SetIndex(s1), SetIndex(s2))
  }

  /** The verdict is the same whichever tolerances are passed. */
  lemma EdgeSetToleranceIgnored(s1: PandasEdgeSet, s2: PandasEdgeSet, r1: Option<real>, a1: Option<real>, r2: Option<real>, a2: Option<real>)
    ensures EdgeSetAssertEqual(s1, s2, r1, a1) == EdgeSetAssertEqual(s1, s2, r2, a2)
  {
  }

  /** Comparing an edge set with itself fails only on repeated edges. */
  lemma EdgeSetSelfEqual(s: PandasEdgeSet, relTol: Option<real>, absTol: Option<real>)
    ensures EdgeSetAssertEqual(s, s, relTol, absTol) == Pass <==> NoDup(SetIndex(s))
  {
  }

  /** `np.isclose(a, b, rtol, atol)` on one pair. */
  predicate Close(a: Scalar, b: Scalar, relTol: real, absTol: real)
    requires !a.Str? && !b.Str?
  {
    var d := Num(a) - Num(b);
    var mag := if Num(b) < 0.0 then -Num(b) else Num(b);
    (if d < 0.0 then -d else d) <= absTol + relTol * mag
  }

  /** numpy's elementwise `==` on one pair. */
  predicate ScalarEq(a: Scalar, b: Scalar) {
    if a.Str? || b.Str? then a.Str? && b.Str? && a.s == b.s else Num(a) == Num(b)
  }

  /** The verdict on one aligned pair of weights: tolerance comparison when
      obj1's weights are floats, exact comparison otherwise. */
  predicate WeightsAgree(floatWeights: bool, a: Scalar, b: Scalar, relTol: real, absTol: real) {
    if floatWeights then !a.Str? && !b.Str? && Close(a, b, relTol, absTol) else ScalarEq(a, b)
  }

  /** obj2's weights in obj1's row order: unchanged when the two indexes
      agree row by row, otherwise looked up by key (`reindex`). */
  function Align(k1: seq<Edge>, k2: seq<Edge>, w2: seq<Scalar>): (r: seq<Scalar>)
    requires |k2| == |w2| && |k1| == |k2|
    requires forall i :: 0 <= i < |k1| ==> k1[i] in k2
    requires NoDup(k2)
    ensures |r| == |k1|
    ensures forall i, j :: 0 <= i < |k1| && 0 <= j < |k2| && k1[i] == k2[j] ==> r[i] == w2[j]
  {
    if k1 == k2 then w2
    else seq(|k1|, i requires 0 <= i < |k1| => w2[IndexOf(k2, k1[i])])
  }

  /** All aligned pairs agree. */
  predicate AllAgree(floatWeights: bool, w1: seq<Scalar>, w2: seq<Scalar>, relTol: real, absTol: real)
    requires |w1| == |w2|
  {
    forall i :: 0 <= i < |w1| ==> WeightsAgree(floatWeights, w1[i], w2[i], relTol, absTol)
  }

  /** Every pair of rows with the same key agrees, whatever their
      positions. */
  predicate PairsAgree(floatWeights: bool, k1: seq<Edge>, w1: seq<Scalar>, k2: seq<Edge>, w2: seq<Scalar>,
                       relTol: real, absTol: real)
    requires |k1| == |w1| && |k2| == |w2|
  {
    forall i, j :: 0 <= i < |k1| && 0 <= j < |k2| && k1[i] == k2[j] ==>
      WeightsAgree(floatWeights, w1[i], w2[j], relTol, absTol)
  }

  /** Comparing after alignment is comparing every pair of rows with the
      same key. */
  lemma AlignedAgreement(floatWeights: bool, k1: seq<Edge>, w1: seq<Scalar>, k2: seq<Edge>, w2: seq<Scalar>,
                         relTol: real, absTol: real)
    requires |k1| == |w1| && |k2| == |w2| && |k1| == |k2|
    requires forall i :: 0 <= i < |k1| ==> k1[i] in k2
    requires NoDup(k2)
    ensures AllAgree(floatWeights, w1, Align(k1, k2, w2), relTol, absTol) <==>
            PairsAgree(floatWeights, k1, w1, k2, w2, relTol, absTol)
  {
    var v2 := Align(k1, k2, w2);
    if AllAgree(floatWeights, w1, v2, relTol, absTol) {
      forall i, j | 0 <= i < |k1| && 0 <= j < |k2| && k1[i] == k2[j]
        ensures WeightsAgree(floatWeights, w1[i], w2[j], relTol, absTol)
      {
        assert v2[i] == w2[j];
      }
    }
    if PairsAgree(floatWeights, k1, w1, k2, w2, relTol, absTol) {
      forall i | 0 <= i < |k1|
        ensures WeightsAgree(floatWeights, w1[i], v2[i], relTol, absTol)
      {
        var j := IndexOf(k2, k1[i]);
        assert v2[i] == w2[j];
      }
    }
  }

  function Weights(m: PandasEdgeMap): (w: seq<Scalar>)
    ensures |w| == m.value.height
  {
    WeightColumn(m).cells
  }

  /** The comparison `PandasEdgeMap.assert_equal` performs, on the two
      weighted edge lists: directedness `d`, keys `k`, weights `w` and the
      weight dtype `t` of each side. */
  function CompareEdgeLists(d1: bool, k1: seq<Edge>, w1: seq<Scalar>, t1: Dtype,
                            d2: bool, k2: seq<Edge>, w2: seq<Scalar>, t2: Dtype,
                            relTol: real, absTol: real): (r: Verdict)
    requires |k1| == |w1| && |k2| == |w2|
    ensures r == Fail(DirectedDiffers) <==> d1 != d2
    ensures r == Pass ==> SharedChecks(d1, d2, k1, k2) == Pass
    ensures r == Fail(Incomparable) <==> SharedChecks(d1, d2, k1, k2) == Pass && t1 == FloatType && t2 == StrType
  {
    var shared := SharedChecks(d1, d2, k1, k2);
    if shared != Pass then shared
    else
      SharedChecksPass(d1, d2, k1, k2);
      assert forall i :: 0 <= i < |k1| ==> k1[i] in Elems(k2);
      var v2 := Align(k1, k2, w2);
      var floatWeights := t1 == FloatType;
      if floatWeights && t2 == StrType then Fail(Incomparable)
      else if AllAgree(floatWeights, w1, v2, relTol, absTol) then Pass
      else Fail(WeightsDiffer)
  }

  /** What the comparison checks, stated without any row alignment: same
      directedness, duplicate-free and equal key sets, comparable weight
      dtypes, and agreeing weights on every pair of rows with the same
      key. */
  predicate ListsMatch(d1: bool, k1: seq<Edge>, w1: seq<Scalar>, t1: Dtype,
                       d2: bool, k2: seq<Edge>, w2: seq<Scalar>, t2: Dtype,
                       relTol: real, absTol: real)
    requires |k1| == |w1| && |k2| == |w2|
  {
    var floatWeights := t1 == FloatType;
    && d1 == d2
    && NoDup(k1) && NoDup(k2) && Elems(k1) == Elems(k2)
    && !(floatWeights && t2 == StrType)
    && PairsAgree(floatWeights, k1, w1, k2, w2, relTol, absTol)
  }

  /** The comparison passes exactly when the two lists match key by key. */
  lemma CompareEdgeListsPass(d1: bool, k1: seq<Edge>, w1: seq<Scalar>, t1: Dtype,
                             d2: bool, k2: seq<Edge>, w2: seq<Scalar>, t2: Dtype,
                             relTol: real, absTol: real)
    requires |k1| == |w1| && |k2| == |w2|
    ensures CompareEdgeLists(d1, k1, w1, t1, d2, k2, w2, t2, relTol, absTol) == Pass <==>
            ListsMatch(d1, k1, w1, t1, d2, k2, w2, t2, relTol, absTol)
  {
    SharedChecksPass(d1, d2, k1, k2);
    var r := CompareEdgeLists(d1, k1, w1, t1, d2, k2, w2, t2, relTol, absTol);
    if SharedChecks(d1, d2, k1, k2) == Pass {
      assert forall i :: 0 <= i < |k1| ==> k1[i] in Elems(k2);
      var floatWeights := t1 == FloatType;
      AlignedAgreement(floatWeights, k1, w1, k2, w2, relTol, absTol);
      assert r == Pass <==> !(floatWeights && t2 == StrType) && AllAgree(floatWeights, w1, Align(k1, k2, w2), relTol, absTol);
    }
  }

  /** `PandasEdgeMap.assert_equal(obj1, obj2, rel_tol=..., abs_tol=...)`. */
  function EdgeMapAssertEqual(m1: PandasEdgeMap, m2: PandasEdgeMap, relTol: real, absTol: real): (r: Verdict)
    ensures r == Fail(DirectedDiffers) <==> m1.isDirected != m2.isDirected
    ensures r == Pass ==> SharedChecks(m1.isDirected, m2.isDirected, MapIndex(m1), MapIndex(m2)) == Pass
    ensures r == Fail(Incomparable) <==>
      SharedChecks(m1.isDirected, m2.isDirected, MapIndex(m1), MapIndex(m2)) == Pass
      && WeightColumn(m1).dtype == FloatType && WeightColumn(m2).dtype == StrType
  {
    CompareEdgeLists(m1.isDirected, MapIndex(m1), Weights(m1), WeightColumn(m1).dtype,
                     m2.isDirected, MapIndex(m2), Weights(m2), WeightColumn(m2).dtype, relTol, absTol)
  }

  /** What `assert_equal` checks, stated on the two maps. */
  predicate EdgeMapsMatch(m1: PandasEdgeMap, m2: PandasEdgeMap, relTol: real, absTol: real) {
    var floatWeights := WeightColumn(m1).dtype == FloatType;
    && m1.isDirected == m2.isDirected
    && NoDup(MapIndex(m1)) && NoDup(MapIndex(m2)) && Elems(MapIndex(m1)) == Elems(MapIndex(m2))
    && !(floatWeights && WeightColumn(m2).dtype == StrType)
    && PairsAgree(floatWeights, MapIndex(m1), Weights(m1), MapIndex(m2), Weights(m2), relTol, absTol)
  }

  /** `assert_equal` passes exactly when the two maps match key by key. */
  lemma EdgeMapAssertEqualPass(m1: PandasEdgeMap, m2: PandasEdgeMap, relTol: real, absTol: real)
    ensures EdgeMapAssertEqual(m1, m2, relTol, absTol) == Pass <==> EdgeMapsMatch(m1, m2, relTol, absTol)
  {
    CompareEdgeListsPass(m1.isDirected, MapIndex(m1), Weights(m1), WeightColumn(m1).dtype,
                         m2.isDirected, MapIndex(m2), Weights(m2), WeightColumn(m2).dtype, relTol, absTol);
  }

  /** Keys paired with weights, row by row. */
  function Zip(k: seq<Edge>, w: seq<Scalar>): (r: seq<(Edge, Scalar)>)
    requires |k| == |w|
    ensures |r| == |k|
    ensures forall i :: 0 <= i < |r| ==> r[i] == (k[i], w[i])
  {
    seq(|k|, i requires 0 <= i < |k| => (k[i], w[i]))
  }

  /** The rows of an edge map as (key, weight) pairs. */
  function Rows(m: PandasEdgeMap): (r: seq<(Edge, Scalar)>)
    ensures |r| == m.value.height
    ensures forall i :: 0 <= i < |r| ==> r[i] == (MapIndex(m)[i], Weights(m)[i])
  {
    Zip(MapIndex(m), Weights(m))
  }

  function RowPairs(k: seq<Edge>, w: seq<Scalar>): (r: set<(Edge, Scalar)>)
    requires |k| == |w|
  {
    set j | 0 <= j < |k| :: (k[j], w[j])
  }

  /** Each row of the one listing occurs in the other. */
  predicate RowsCovered(k2: seq<Edge>, w2: seq<Scalar>, k3: seq<Edge>, w3: seq<Scalar>)
    requires |k2| == |w2| && |k3| == |w3|
  {
    forall j :: 0 <= j < |k3| ==> (k3[j], w3[j]) in RowPairs(k2, w2)
  }

  /** Agreement with every row of `k2, w2` carries over to a listing whose
      rows all occur there. */
  lemma PairsAgreeCarries(floatWeights: bool, k1: seq<Edge>, w1: seq<Scalar>, k2: seq<Edge>, w2: seq<Scalar>,
                          k3: seq<Edge>, w3: seq<Scalar>, relTol: real, absTol: real)
    requires |k1| == |w1| && |k2| == |w2| && |k3| == |w3|
    requires RowsCovered(k2, w2, k3, w3)
    requires PairsAgree(floatWeights, k1, w1, k2, w2, relTol, absTol)
    ensures PairsAgree(floatWeights, k1, w1, k3, w3, relTol, absTol)
  {
    forall i, j | 0 <= i < |k1| && 0 <= j < |k3| && k1[i] == k3[j]
      ensures WeightsAgree(floatWeights, w1[i], w3[j], relTol, absTol)
    {
      assert (k3[j], w3[j]) in RowPairs(k2, w2);
      var j' :| 0 <= j' < |k2| && (k2[j'], w2[j']) == (k3[j], w3[j]);
    }
  }

  /** Every row of one listing is a row of another holding the same rows. */
  lemma RowsShared(k2: seq<Edge>, w2: seq<Scalar>, k3: seq<Edge>, w3: seq<Scalar>)
    requires |k2| == |w2| && |k3| == |w3|
    requires multiset(Zip(k2, w2)) == multiset(Zip(k3, w3))
    ensures |k2| == |k3|
    ensures RowsCovered(k3, w3, k2, w2)
    ensures forall x :: x in k2 ==> x in k3
  {
    var r2, r3 := Zip(k2, w2), Zip(k3, w3);
    assert |r2| == |multiset(r2)| == |multiset(r3)| == |r3|;
    forall j | 0 <= j < |r2|
      ensures (k2[j], w2[j]) in RowPairs(k3, w3)
      ensures k2[j] in k3
    {
      assert r2[j] in multiset(r3);
      var j' :| 0 <= j' < |r3| && r3[j'] == r2[j];
      assert k3[j'] == k2[j];
    }
  }

  /** A match against one listing carries over to another holding the same
      rows. */
  lemma ReorderKeepsMatch(d1: bool, k1: seq<Edge>, w1: seq<Scalar>, t1: Dtype,
                     d2: bool, k2: seq<Edge>, w2: seq<Scalar>, k3: seq<Edge>, w3: seq<Scalar>, t2: Dtype,
                     relTol: real, absTol: real)
    requires |k1| == |w1| && |k2| == |w2| && |k3| == |w3|
    requires multiset(Zip(k2, w2)) == multiset(Zip(k3, w3))
    requires ListsMatch(d1, k1, w1, t1, d2, k2, w2, t2, relTol, absTol)
    ensures ListsMatch(d1, k1, w1, t1, d2, k3, w3, t2, relTol, absTol)
  {
    RowsShared(k2, w2, k3, w3);
    RowsShared(k3, w3, k2, w2);
    assert Elems(k2) == Elems(k3);
    SameLengthSameElemsNoDup(k2, k3);
    PairsAgreeCarries(t1 == FloatType, k1, w1, k2, w2, k3, w3, relTol, absTol);
  }

  /** The order of obj2's rows does not matter: two second arguments with
      the same rows in any order get the same verdict. */
  lemma RowOrderIrrelevant(d1: bool, k1: seq<Edge>, w1: seq<Scalar>, t1: Dtype,
                           d2: bool, k2: seq<Edge>, w2: seq<Scalar>, k3: seq<Edge>, w3: seq<Scalar>, t2: Dtype,
                           relTol: real, absTol: real)
    requires |k1| == |w1| && |k2| == |w2| && |k3| == |w3|
    requires multiset(Zip(k2, w2)) == multiset(Zip(k3, w3))
    ensures CompareEdgeLists(d1, k1, w1, t1, d2, k2, w2, t2, relTol, absTol) == Pass <==>
            CompareEdgeLists(d1, k1, w1, t1, d2, k3, w3, t2, relTol, absTol) == Pass
  {
    CompareEdgeListsPass(d1, k1, w1, t1, d2, k2, w2, t2, relTol, absTol);
    CompareEdgeListsPass(d1, k1, w1, t1, d2, k3, w3, t2, relTol, absTol);
    if ListsMatch(d1, k1, w1, t1, d2, k2, w2, t2, relTol, absTol) {
      ReorderKeepsMatch(d1, k1, w1, t1, d2, k2, w2, k3, w3, t2, relTol, absTol);
    }
    if ListsMatch(d1, k1, w1, t1, d2, k3, w3, t2, relTol, absTol) {
      ReorderKeepsMatch(d1, k1, w1, t1, d2, k3, w3, k2, w2, t2, relTol, absTol);
    }
  }

  /** The same on edge maps: a second argument whose rows are a reordering
      of another's gets the same verdict. */
  lemma EdgeMapRowOrderIrrelevant(m1: PandasEdgeMap, m2: PandasEdgeMap, m3: PandasEdgeMap, relTol: real, absTol: real)
    requires m2.isDirected == m3.isDirected
    requires WeightColumn(m2).dtype == WeightColumn(m3).dtype
    requires multiset(Rows(m2)) == multiset(Rows(m3))
    ensures EdgeMapAssertEqual(m1, m2, relTol, absTol) == Pass <==> EdgeMapAssertEqual(m1, m3, relTol, absTol) == Pass
  {
    RowOrderIrrelevant(m1.isDirected, MapIndex(m1), Weights(m1), WeightColumn(m1).dtype,
                       m2.isDirected, MapIndex(m2), Weights(m2), MapIndex(m3), Weights(m3), WeightColumn(m2).dtype,
                       relTol, absTol);
  }

  /** Tolerance at the default settings: with `rel_tol=1e-9` and no
      absolute tolerance a difference of 1e-10 on a weight of 1 passes and
      a difference of 1e-3 fails. */
  lemma ToleranceExamples()
    ensures Close(Float(1.0000000001), Float(1.0), 0.000000001, 0.0)
    ensures !Close(Float(1.001), Float(1.0), 0.000000001, 0.0)
  {
  }
}
