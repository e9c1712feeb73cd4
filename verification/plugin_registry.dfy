/** The plugin registry: six identity-keyed catalogs and the classification
    that `register` performs on a single object. */
module PluginRegistry {
  import opened Results

  /** The three base classes a type-like plugin can extend. */
  datatype TypeBase = AbstractTypeBase | ConcreteTypeBase | WrapperBase

  /** The three classes an instance-like plugin can be an instance of. */
  datatype Capability = TranslatorCap | AbstractAlgorithmCap | ConcreteAlgorithmCap

  /** Identity of a Python module object. */
  type ModuleId = nat

  /** A Python value as the registry sees it. `uid` stands for object
      identity: two values with different `uid`s are different objects even
      when everything else agrees. */
  datatype Obj =
    | /** A user class (its type is `type`), with the type bases it
          extends, directly or not, and the name of its defining module. */
      Class(uid: nat, definedIn: string, bases: set<TypeBase>)
    | /** One of the three type base classes itself. */
      BaseClass(base: TypeBase)
    | /** A non-class object, with the capability classes it is an instance of. */
      Instance(uid: nat, caps: set<Capability>)
    | /** A module object. */
      ModuleObj(id: ModuleId)
    | /** Anything else: numbers, lists, functions without a marker, ... */
      Other(uid: nat)

  /** The six catalogs, in the order the source tests them. */
  datatype Catalog =
    | AbstractTypes | ConcreteTypes | Wrappers
    | Translators | AbstractAlgorithms | ConcreteAlgorithms
  {
    /** True for the catalogs that hold classes. */
    predicate HoldsClasses() {
      AbstractTypes? || ConcreteTypes? || Wrappers?
    }

    /** Position in the source's test order. */
    function Rank(): nat {
      match this
      case AbstractTypes => 0
      case ConcreteTypes => 1
      case Wrappers => 2
      case Translators => 0
      case AbstractAlgorithms => 1
      case ConcreteAlgorithms => 2
    }
  }

  /** The catalog a type base's subclasses go to. */
  function CatalogOfBase(b: TypeBase): Catalog {
    match b
    case AbstractTypeBase => AbstractTypes
    case ConcreteTypeBase => ConcreteTypes
    case WrapperBase => Wrappers
  }

  /** The catalog instances of a capability class go to. */
  function CatalogOfCapability(c: Capability): Catalog {
    match c
    case TranslatorCap => Translators
    case AbstractAlgorithmCap => AbstractAlgorithms
    case ConcreteAlgorithmCap => ConcreteAlgorithms
  }

  /** `o` has what it takes to enter catalog `c`: a class that is a
      subclass of the catalog's base (`issubclass`, reflexive on the base
      itself), or a non-class that is an instance of the catalog's
      capability class (`isinstance`). */
  predicate Carries(o: Obj, c: Catalog) {
    match o
    case Class(_, _, bases) =>
      || (c == AbstractTypes && AbstractTypeBase in bases)
      || (c == ConcreteTypes && ConcreteTypeBase in bases)
      || (c == Wrappers && WrapperBase in bases)
    case BaseClass(b) => CatalogOfBase(b) == c
    case Instance(_, caps) =>
      || (c == Translators && TranslatorCap in caps)
      || (c == AbstractAlgorithms && AbstractAlgorithmCap in caps)
      || (c == ConcreteAlgorithms && ConcreteAlgorithmCap in caps)
    case _ => false
  }

  /** The registry's catalogs. Membership is identity: Obj equality. */
  datatype Registry = Registry(
    abstractTypes: set<Obj>,
    concreteTypes: set<Obj>,
    wrappers: set<Obj>,
    translators: set<Obj>,
    abstractAlgorithms: set<Obj>,
    concreteAlgorithms: set<Obj>)
  {
    function Get(c: Catalog): set<Obj> {
      match c
      case AbstractTypes => abstractTypes
      case ConcreteTypes => concreteTypes
      case Wrappers => wrappers
      case Translators => translators
      case AbstractAlgorithms => abstractAlgorithms
      case ConcreteAlgorithms => concreteAlgorithms
    }

    /** `set.add` on one catalog; the other five are untouched. */
    function Add(c: Catalog, o: Obj): (r: Registry)
      ensures forall d :: r.Get(d) == if d == c then Get(d) + {o} else Get(d)
    {
      match c
      case AbstractTypes => this.(abstractTypes := abstractTypes + {o})
      case ConcreteTypes => this.(concreteTypes := concreteTypes + {o})
      case Wrappers => this.(wrappers := wrappers + {o})
      case Translators => this.(translators := translators + {o})
      case AbstractAlgorithms => this.(abstractAlgorithms := abstractAlgorithms + {o})
      case ConcreteAlgorithms => this.(concreteAlgorithms := concreteAlgorithms + {o})
    }
  }

  /** Every catalog of `b` contains the same catalog of `a`. */
  predicate Grows(a: Registry, b: Registry) {
    forall c :: a.Get(c) <= b.Get(c)
  }

  /** Every entry sits in the catalog its own classification names. */
  predicate Consistent(r: Registry) {
    forall c, o :: o in r.Get(c) ==> Classify(o) == Some(c)
  }

  /** A new registry: six catalogs, all empty. */
  function Fresh(): (r: Registry)
    ensures forall c :: r.Get(c) == {}
    ensures Consistent(r)
  {
    Registry({}, {}, {}, {}, {}, {})
  }

  /** The errors the registry raises. */
  datatype RegistryError =
    | /** `register` found no category for the object. */
      InvalidPlugin(obj: Obj)
    | /** `register_from_modules` got an argument that is not a module:
          the position of the first such argument. */
      NotAModule(position: nat)

  /** The registry after a call, and what the call returned or raised. */
  datatype Effect<+T> = Effect(reg: Registry, outcome: Result<T, RegistryError>)

  /** The catalog `register` puts `o` in: for a class the first of
      abstract type, concrete type, wrapper whose base it extends; for
      anything else the first of translator, abstract algorithm, concrete
      algorithm it is an instance of; `None` when nothing matches. */
  function Classify(o: Obj): (r: Option<Catalog>)
    ensures r.Some? ==> Carries(o, r.value)
    ensures r.None? ==> forall c :: !Carries(o, c)
    ensures r.Some? ==> forall c :: Carries(o, c) ==> r.value.Rank() <= c.Rank()
  {
    match o
    case Class(_, _, bases) =>
      if AbstractTypeBase in bases then Some(AbstractTypes)
      else if ConcreteTypeBase in bases then Some(ConcreteTypes)
      else if WrapperBase in bases then Some(Wrappers)
      else None
    case BaseClass(b) => Some(CatalogOfBase(b))
    case Instance(_, caps) =>
      if TranslatorCap in caps then Some(Translators)
      else if AbstractAlgorithmCap in caps then Some(AbstractAlgorithms)
      else if ConcreteAlgorithmCap in caps then Some(ConcreteAlgorithms)
      else None
    case _ => None
  }

  /** Classes only ever land in the class catalogs, other objects only in
      the three others. */
  lemma ClassifyKeepsKinds(o: Obj)
    requires Classify(o).Some?
    ensures Classify(o).value.HoldsClasses() <==> (o.Class? || o.BaseClass?)
  {
  }

  /** `register`: add `o` to the catalog it classifies into and return it
      unchanged, or raise without touching any catalog. */
  function Register(reg: Registry, o: Obj): (e: Effect<Obj>)
    ensures e.outcome.Ok? <==> exists c :: Carries(o, c)
    ensures e.outcome.Err? ==> e.reg == reg && e.outcome.error == InvalidPlugin(o)
    ensures e.outcome.Ok? ==> e.outcome.value == o
    ensures e.outcome.Ok? ==>
      forall c :: e.reg.Get(c) == if Carries(o, c) && (forall d :: Carries(o, d) ==> c.Rank() <= d.Rank())
                                 then reg.Get(c) + {o} else reg.Get(c)
    ensures Grows(reg, e.reg)
    ensures Consistent(reg) ==> Consistent(e.reg)
  {
    match Classify(o)
    case Some(c) => Effect(reg.Add(c, o), Ok(o))
    case None => Effect(reg, Err(InvalidPlugin(o)))
  }

  /** Registering an object a second time changes nothing. */
  lemma RegisterIdempotent(reg: Registry, o: Obj)
    ensures Register(Register(reg, o).reg, o) == Register(reg, o)
  {
  }

  /** In a consistent registry an object is in at most one catalog, and
      after a successful `register` it is in exactly one. */
  lemma ExactlyOneCatalog(reg: Registry, o: Obj)
    requires Consistent(reg)
    requires Register(reg, o).outcome.Ok?
    ensures forall c :: o in Register(reg, o).reg.Get(c) <==> Classify(o) == Some(c)
  {
  }
}
