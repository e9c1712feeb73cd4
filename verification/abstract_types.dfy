/** The abstract types the library declares: their property enumerations,
    their unambiguous reductions to simpler types, and the capabilities a
    wrapper for them must supply. The table is constant data; the lemmas
    below are its well-formedness. */
module AbstractTypes {
  import opened Results
  import opened Collections

  /** The nine declared abstract types. */
  datatype TypeName =
    | Vector | Matrix | DataFrame
    | NodeSet | NodeMap | NodeTable
    | EdgeSet | EdgeMap | EdgeTable

  /** A legal property value: a Python boolean or a string choice. */
  datatype PropValue = Flag(b: bool) | Choice(s: string)

  /** One entry of a `properties` dict: the name and its legal values, in
      declaration order. */
  datatype PropDecl = PropDecl(name: string, values: seq<PropValue>)

  /** The four simplified dtypes a `dtype` property may take. */
  const DtypeChoices: seq<PropValue> := [Choice("str"), Choice("float"), Choice("int"), Choice("bool")]

  /** `[False, True]`, as `is_dense` and `is_square` list it. */
  const FalseTrue: seq<PropValue> := [Flag(false), Flag(true)]

  /** `[True, False]`, as `is_directed` and `has_negative_weights` list it. */
  const TrueFalse: seq<PropValue> := [Flag(true), Flag(false)]

  /** The `properties` dict of each type, in declaration order; types that
      declare none have the empty list. */
  function Properties(t: TypeName): seq<PropDecl> {
    match t
    case Vector => [PropDecl("is_dense", FalseTrue), PropDecl("dtype", DtypeChoices)]
    case Matrix => [PropDecl("is_dense", FalseTrue), PropDecl("is_square", FalseTrue), PropDecl("dtype", DtypeChoices)]
    case DataFrame => []
    case NodeSet => []
    case NodeMap => [PropDecl("dtype", DtypeChoices)]
    case NodeTable => []
    case EdgeSet => [PropDecl("is_directed", TrueFalse)]
    case EdgeMap => [PropDecl("is_directed", TrueFalse), PropDecl("dtype", DtypeChoices), PropDecl("has_negative_weights", TrueFalse)]
    case EdgeTable => [PropDecl("is_directed", TrueFalse)]
  }

  /** The names `t` declares properties for. */
  function PropertyNames(t: TypeName): set<string> {
    set k | 0 <= k < |Properties(t)| :: Properties(t)[k].name
  }

  /** The `unambiguous_subcomponents` set of each type. */
  function Subcomponents(t: TypeName): set<TypeName> {
    match t
    case NodeMap => {NodeSet}
    case NodeTable => {NodeSet}
    case EdgeMap => {EdgeSet}
    case EdgeTable => {EdgeSet}
    case _ => {}
  }

  /** Methods a wrapper bound to `t` must implement. */
  function RequiredMethods(t: TypeName): set<string> {
    if t == NodeMap then {"__getitem__"} else {}
  }

  /** Properties a wrapper bound to `t` must implement. */
  function RequiredProperties(t: TypeName): set<string> {
    if t == NodeMap then {"num_nodes"} else {}
  }

  /** The single type `t` reduces to, if any. */
  function ReductionTarget(t: TypeName): (r: Option<TypeName>)
    ensures r.None? <==> Subcomponents(t) == {}
    ensures r.Some? ==> Subcomponents(t) == {r.value}
  {
    match t
    case NodeMap => Some(NodeSet)
    case NodeTable => Some(NodeSet)
    case EdgeMap => Some(EdgeSet)
    case EdgeTable => Some(EdgeSet)
    case _ => None
  }

  /** Where `n` reduction steps from `t` lead, or `None` once a type with
      no subcomponent is passed. */
  function Reduce(t: TypeName, n: nat): Option<TypeName>
    decreases n
  {
    if n == 0 then Some(t)
    else match ReductionTarget(t)
      case None => None
      case Some(s) => Reduce(s, n - 1)
  }

  /** Every type has at most one unambiguous reduction target. */
  lemma SubcomponentsSingleValued(t: TypeName)
    ensures |Subcomponents(t)| <= 1
  {
    if ReductionTarget(t).Some? {
      assert Subcomponents(t) == {ReductionTarget(t).value};
    }
  }

  /** Reduction targets reduce no further: the graph has depth at most one. */
  lemma ReductionDepthOne(t: TypeName)
    ensures ReductionTarget(t).Some? ==> ReductionTarget(ReductionTarget(t).value).None?
  {
  }

  /** Two steps of reduction always run out. */
  lemma {:induction false} ReduceStopsAtTwo(t: TypeName, n: nat)
    requires n >= 2
    ensures Reduce(t, n) == None
  {
    match ReductionTarget(t)
    case None =>
    case Some(s) =>
      ReductionDepthOne(t);
      assert Reduce(s, n - 1) == None;
  }

  /** The reduction graph is acyclic: no positive number of steps leads
      from a type back to itself. */
  lemma {:induction false} ReductionAcyclic(t: TypeName, n: nat)
    requires n >= 1
    ensures Reduce(t, n) != Some(t)
  {
    if n >= 2 {
      ReduceStopsAtTwo(t, n);
    } else {
      assert Reduce(t, 1) == ReductionTarget(t);
    }
  }

  /** Reducing never invents properties: the target's property names are
      among the reducing type's. */
  lemma ReductionKeepsPropertyNames(t: TypeName)
    requires ReductionTarget(t).Some?
    ensures PropertyNames(ReductionTarget(t).value) <= PropertyNames(t)
  {
    var p := ReductionTarget(t).value;
    forall x | x in PropertyNames(p) ensures x in PropertyNames(t) {
      var k :| 0 <= k < |Properties(p)| && Properties(p)[k].name == x;
      assert Properties(t)[0].name == x;
    }
  }

  /** Every property is declared once per type, and every value list is
      non-empty and duplicate-free. */
  lemma PropertiesWellFormed(t: TypeName)
    ensures forall i, j :: 0 <= i < j < |Properties(t)| ==> Properties(t)[i].name != Properties(t)[j].name
    ensures forall k :: 0 <= k < |Properties(t)| ==> |Properties(t)[k].values| > 0 && NoDup(Properties(t)[k].values)
  {
  }

  /** Every `dtype` property ranges over the same four choices. */
  lemma DtypeUniform(t: TypeName)
    ensures forall k :: 0 <= k < |Properties(t)| && Properties(t)[k].name == "dtype" ==>
      Properties(t)[k].values == DtypeChoices
  {
  }

  /** Only `NodeMap` declares wrapper requirements: the method
      `__getitem__` and the property `num_nodes`. */
  lemma NodeMapRequirements(t: TypeName)
    ensures RequiredMethods(t) != {} || RequiredProperties(t) != {} <==> t == NodeMap
    ensures RequiredMethods(NodeMap) == {"__getitem__"} && RequiredProperties(NodeMap) == {"num_nodes"}
  {
  }

  /** The names `EdgeMap` declares, spelled out. */
  lemma EdgeMapPropertyNames()
    ensures PropertyNames(EdgeMap) == {"is_directed", "dtype", "has_negative_weights"}
  {
    var ps := Properties(EdgeMap);
    assert ps[0].name == "is_directed" && ps[1].name == "dtype" && ps[2].name == "has_negative_weights";
  }

  /** `_validate_abstract_props`: the first requested name `t` does not
      declare, or `None` when every requested name is declared. */
  function FirstUndeclared(t: TypeName, props: seq<string>): (r: Option<string>)
    ensures r.None? <==> forall k :: 0 <= k < |props| ==> props[k] in PropertyNames(t)
    ensures r.Some? ==> r.value in props && r.value !in PropertyNames(t)
    decreases |props|
  {
    if |props| == 0 then None
    else if props[0] !in PropertyNames(t) then Some(props[0])
    else
      assert forall k :: 0 < k < |props| ==> props[k] == props[1..][k - 1];
      FirstUndeclared(t, props[1..])
  }

  /** The name reported is the earliest offending one: everything
      requested before it is declared. */
  lemma {:induction false} FirstUndeclaredIsFirst(t: TypeName, props: seq<string>)
    requires FirstUndeclared(t, props).Some?
    ensures exists k :: 0 <= k < |props| && props[k] == FirstUndeclared(t, props).value
                        && forall j :: 0 <= j < k ==> props[j] in PropertyNames(t)
    decreases |props|
  {
    if props[0] in PropertyNames(t) {
      FirstUndeclaredIsFirst(t, props[1..]);
      var k :| 0 <= k < |props[1..]| && props[1..][k] == FirstUndeclared(t, props).value
               && forall j :: 0 <= j < k ==> props[1..][j] in PropertyNames(t);
      assert props[k + 1] == props[1..][k];
      forall j | 0 <= j < k + 1 ensures props[j] in PropertyNames(t) {
        if j > 0 { assert props[j] == props[1..][j - 1]; }
      }
    } else {
      assert props[0] == FirstUndeclared(t, props).value;
    }
  }
}
