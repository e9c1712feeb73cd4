/** `register_from_modules`: discovery of plugins over a graph of modules
    that may re-export each other, with a seen-set shared by all roots. */
module ModuleDiscovery {
  import opened Results
  import opened Text
  import opened Collections
  import opened PluginRegistry

  /** One entry of `vars(module)`: a name and the value bound to it. */
  datatype Member = Member(key: string, value: Obj)

  /** A module: its dotted `__name__` and its members in `vars()` order. */
  datatype ModuleInfo = ModuleInfo(name: string, members: seq<Member>)

  /** Every module of the process, keyed by identity. Two modules may
      share a name; they are still different modules. */
  type Universe = map<ModuleId, ModuleInfo>

  /** A positional argument of `register_from_modules`: a value, or a list
      or tuple of values. */
  datatype Arg = Value(obj: Obj) | Listing(items: seq<Obj>)

  /** The traversal state: the registry, the shared seen-set, and, for the
      statement of the at-most-once property, the modules recursion entered,
      in order. */
  datatype Scan = Scan(reg: Registry, seen: set<ModuleId>, entered: seq<ModuleId>)

  /** The origin test on a class: defined in the root module itself or in
      a module below it, with a "." boundary. */
  predicate FromPackage(definedIn: string, base: string) {
    definedIn == base || StartsWith(definedIn, base + ".")
  }

  /** The discovery filter on a member value, for a scan rooted at the
      module named `base`. A class must extend a type base, come from the
      root's package and not be a base class itself; a translator or
      algorithm is taken whatever its origin. */
  predicate Selected(v: Obj, base: string) {
    match v
    case Class(_, definedIn, bases) => bases != {} && FromPackage(definedIn, base)
    case BaseClass(_) => false
    case Instance(_, caps) => caps != {}
    case _ => false
  }

  /** The recursion test: a module, recursion asked for, its name starts
      with the root's name (no "." boundary here), not yet seen. */
  predicate Enters(u: Universe, v: Obj, recurse: bool, base: string, seen: set<ModuleId>) {
    && recurse
    && v.ModuleObj?
    && v.id in u
    && StartsWith(u[v.id].name, base)
    && v.id !in seen
  }

  /** A member a scan rooted at `base` registers when it meets it. */
  predicate Candidate(mem: Member, base: string) {
    !IsPrivate(mem.key) && Selected(mem.value, base)
  }

  /** `o` is bound to a public name in module `info`. */
  predicate PublicIn(info: ModuleInfo, o: Obj) {
    exists j :: 0 <= j < |info.members| && info.members[j].value == o && !IsPrivate(info.members[j].key)
  }

  /** `o` sits in the catalog it classifies into. */
  predicate Holds(reg: Registry, o: Obj) {
    Classify(o).Some? && o in reg.Get(Classify(o).value)
  }

  /** Each entered module is logged once and is in the seen-set. */
  predicate Logged(st: Scan) {
    NoDup(st.entered) && forall k :: 0 <= k < |st.entered| ==> st.entered[k] in st.seen
  }

  /** Everything the filter selects can be registered: discovery never
      makes `register` raise. */
  lemma SelectedClassifies(v: Obj, base: string)
    requires Selected(v, base)
    ensures Register(Fresh(), v).outcome.Ok?
    ensures Classify(v).Some?
  {
    match v
    case Class(_, _, bases) =>
      var b :| b in bases;
      assert Carries(v, CatalogOfBase(b));
    case Instance(_, caps) =>
      var k :| k in caps;
      assert Carries(v, CatalogOfCapability(k));
  }

  lemma DiffShrinks(a: set<ModuleId>, s: set<ModuleId>, t: set<ModuleId>)
    requires s <= t
    ensures |a - t| <= |a - s|
  {
    var small, big := a - t, a - s;
    assert big == small + (big - small);
    assert small * (big - small) == {};
  }

  lemma DiffShrinksStrictly(a: set<ModuleId>, s: set<ModuleId>, x: ModuleId)
    requires x in a && x !in s
    ensures |a - (s + {x})| < |a - s|
  {
    assert a - (s + {x}) == (a - s) - {x};
  }

  /** `_register_module(module)` from member `i` on: the members of module
      `m` are visited in `vars()` order. */
  function ScanFrom(u: Universe, m: ModuleId, i: nat, recurse: bool, base: string, st: Scan): (r: Scan)
    requires m in u && i <= |u[m].members|
    ensures st.seen <= r.seen
    ensures r.seen - st.seen <= u.Keys
    ensures Grows(st.reg, r.reg)
    ensures st.entered <= r.entered
    decreases |u.Keys - st.seen|, |u[m].members| - i, 1
  {
    if i == |u[m].members| then st
    else
      var next := Visit(u, m, i, recurse, base, st);
      DiffShrinks(u.Keys, st.seen, next.seen);
      ScanFrom(u, m, i + 1, recurse, base, next)
  }

  /** The loop body of `_register_module` on member `i` of module `m`:
      skip a private name; register a class that passes the origin test;
      register a translator or algorithm; or mark a matching, unseen
      submodule seen and scan it. Because a module is marked seen before it
      is scanned, the scan ends on a cyclic module graph: the measure is
      the number of modules not yet seen. */
  function Visit(u: Universe, m: ModuleId, i: nat, recurse: bool, base: string, st: Scan): (r: Scan)
    requires m in u && i < |u[m].members|
    ensures st.seen <= r.seen
    ensures r.seen - st.seen <= u.Keys
    ensures Grows(st.reg, r.reg)
    ensures st.entered <= r.entered
    decreases |u.Keys - st.seen|, |u[m].members| - i, 0
  {
    var v := u[m].members[i].value;
    if IsPrivate(u[m].members[i].key) then st
    else if v.Class? || v.BaseClass? then
      if Selected(v, base) then st.(reg := Register(st.reg, v).reg) else st
    else if Selected(v, base) then st.(reg := Register(st.reg, v).reg)
    else if Enters(u, v, recurse, base, st.seen) then
      DiffShrinksStrictly(u.Keys, st.seen, v.id);
      ScanFrom(u, v.id, 0, recurse, base, EnterState(st, v.id))
    else st
  }

  /** Member `i` of module `m` is a submodule the visit scans. */
  predicate EntersAt(u: Universe, m: ModuleId, i: nat, recurse: bool, base: string, st: Scan)
    requires m in u && i < |u[m].members|
  {
    var v := u[m].members[i].value;
    !IsPrivate(u[m].members[i].key) && !v.Class? && !v.BaseClass? && !Selected(v, base)
    && Enters(u, v, recurse, base, st.seen)
  }

  /** A visit that scans no submodule sees and enters nothing new. */
  lemma VisitStays(u: Universe, m: ModuleId, i: nat, recurse: bool, base: string, st: Scan)
    requires m in u && i < |u[m].members|
    requires !EntersAt(u, m, i, recurse, base, st)
    ensures Visit(u, m, i, recurse, base, st).seen == st.seen
    ensures Visit(u, m, i, recurse, base, st).entered == st.entered
  {
  }

  /** A visit that scans submodule `id` is that scan. */
  lemma VisitIsScan(u: Universe, m: ModuleId, i: nat, recurse: bool, base: string, st: Scan)
    requires m in u && i < |u[m].members|
    requires EntersAt(u, m, i, recurse, base, st)
    ensures var id := u[m].members[i].value.id;
      id in u && id !in st.seen &&
      Visit(u, m, i, recurse, base, st) == ScanFrom(u, id, 0, recurse, base, EnterState(st, id))
  {
  }

  /** `o` is bound to a public name in one of the modules of `scope`. */
  predicate FoundIn(u: Universe, scope: set<ModuleId>, o: Obj) {
    exists n :: n in scope && n in u && PublicIn(u[n], o)
  }

  /** Every candidate member of `info` is registered in `reg`. */
  predicate CandidatesHeld(info: ModuleInfo, base: string, reg: Registry) {
    forall j :: 0 <= j < |info.members| && Candidate(info.members[j], base) ==> Holds(reg, info.members[j].value)
  }

  lemma HoldsGrows(a: Registry, b: Registry, o: Obj)
    requires Holds(a, o) && Grows(a, b)
    ensures Holds(b, o)
  {
  }

  /** A selected member is in its catalog right after `register`. */
  lemma RegisterHolds(reg: Registry, v: Obj, base: string)
    requires Selected(v, base)
    ensures Holds(Register(reg, v).reg, v)
  {
    SelectedClassifies(v, base);
  }

  /** The state in which recursion scans submodule `id`. */
  function EnterState(st: Scan, id: ModuleId): Scan {
    Scan(st.reg, st.seen + {id}, st.entered + [id])
  }

  /** Logging one more entered module keeps the log duplicate-free. */
  lemma LogEnter(st: Scan, id: ModuleId)
    requires Logged(st) && id !in st.seen
    ensures Logged(EnterState(st, id))
  {
    var e := st.entered + [id];
    forall a, b | 0 <= a < b < |e|
      ensures e[a] != e[b]
    {
      if b == |st.entered| {
        assert e[a] in Elems(st.entered);
      }
    }
  }

  /** Recursion enters a module only with recursion on and when the
      module's name extends the root's name. */
  lemma {:induction false} ScanEntersMatching(u: Universe, m: ModuleId, i: nat, recurse: bool, base: string, st: Scan)
    requires m in u && i <= |u[m].members|
    ensures var r := ScanFrom(u, m, i, recurse, base, st);
      forall n :: n in r.seen - st.seen ==> recurse && StartsWith(u[n].name, base)
    decreases |u.Keys - st.seen|, |u[m].members| - i, 1
  {
    if i < |u[m].members| {
      var next := Visit(u, m, i, recurse, base, st);
      VisitEntersMatching(u, m, i, recurse, base, st);
      DiffShrinks(u.Keys, st.seen, next.seen);
      ScanEntersMatching(u, m, i + 1, recurse, base, next);
    }
  }

  lemma {:induction false} VisitEntersMatching(u: Universe, m: ModuleId, i: nat, recurse: bool, base: string, st: Scan)
    requires m in u && i < |u[m].members|
    ensures var r := Visit(u, m, i, recurse, base, st);
      forall n :: n in r.seen - st.seen ==> recurse && StartsWith(u[n].name, base)
    decreases |u.Keys - st.seen|, |u[m].members| - i, 0
  {
    var v := u[m].members[i].value;
    if !IsPrivate(u[m].members[i].key) && !v.Class? && !v.BaseClass? && !Selected(v, base)
       && Enters(u, v, recurse, base, st.seen) {
      DiffShrinksStrictly(u.Keys, st.seen, v.id);
      ScanEntersMatching(u, v.id, 0, recurse, base, EnterState(st, v.id));
    }
  }

  /** `b`'s log extends `a`'s by exactly the modules `b` saw that `a` had
      not. */
  ghost predicate LogExtends(a: Scan, b: Scan) {
    && a.entered <= b.entered
    && forall n :: n in b.entered <==> n in a.entered || n in b.seen - a.seen
  }

  lemma LogExtendsTrans(a: Scan, b: Scan, c: Scan)
    requires LogExtends(a, b) && LogExtends(b, c)
    requires a.seen <= b.seen <= c.seen
    ensures LogExtends(a, c)
  {
    forall n
      ensures n in c.entered <==> n in a.entered || n in c.seen - a.seen
    {
      assert n in c.entered <==> n in b.entered || n in c.seen - b.seen;
      assert n in b.entered <==> n in a.entered || n in b.seen - a.seen;
    }
  }

  /** Each module is entered at most once: the log only grows, never
      repeats a module, and its new entries are exactly the modules the
      scan added to the seen-set. */
  lemma {:induction false} ScanLog(u: Universe, m: ModuleId, i: nat, recurse: bool, base: string, st: Scan)
    requires m in u && i <= |u[m].members|
    requires Logged(st)
    ensures var r := ScanFrom(u, m, i, recurse, base, st);
      Logged(r) && LogExtends(st, r)
    decreases |u.Keys - st.seen|, |u[m].members| - i, 1
  {
    if i < |u[m].members| {
      var next := Visit(u, m, i, recurse, base, st);
      VisitLog(u, m, i, recurse, base, st);
      DiffShrinks(u.Keys, st.seen, next.seen);
      ScanLog(u, m, i + 1, recurse, base, next);
      var r := ScanFrom(u, m, i + 1, recurse, base, next);
      assert r == ScanFrom(u, m, i, recurse, base, st);
      LogExtendsTrans(st, next, r);
    } else {
      assert ScanFrom(u, m, i, recurse, base, st) == st;
    }
  }

  lemma {:induction false} VisitLog(u: Universe, m: ModuleId, i: nat, recurse: bool, base: string, st: Scan)
    requires m in u && i < |u[m].members|
    requires Logged(st)
    ensures var r := Visit(u, m, i, recurse, base, st);
      Logged(r) && LogExtends(st, r)
    decreases |u.Keys - st.seen|, |u[m].members| - i, 0
  {
    if EntersAt(u, m, i, recurse, base, st) {
      var id := u[m].members[i].value.id;
      VisitIsScan(u, m, i, recurse, base, st);
      DiffShrinksStrictly(u.Keys, st.seen, id);
      var st1 := EnterState(st, id);
      LogEnter(st, id);
      ScanLog(u, id, 0, recurse, base, st1);
      assert LogExtends(st, st1);
      LogExtendsTrans(st, st1, ScanFrom(u, id, 0, recurse, base, st1));
    } else {
      VisitStays(u, m, i, recurse, base, st);
    }
  }

  /** Every entry of `b` missing from `a` passes the filter for one of
      the root names in `bases` and is bound to a public name in a module
      of `scope`. */
  predicate AddsOnlyFound(u: Universe, bases: set<string>, scope: set<ModuleId>, a: Registry, b: Registry) {
    forall c, o :: o in b.Get(c) && o !in a.Get(c) ==> SelectedForSome(o, bases) && FoundIn(u, scope, o)
  }

  /** `o` passes the filter for one of the root names in `bases`. */
  predicate SelectedForSome(o: Obj, bases: set<string>) {
    exists base :: base in bases && Selected(o, base)
  }

  lemma AddsOnlyFoundAt(u: Universe, bases: set<string>, scope: set<ModuleId>, a: Registry, b: Registry, c: Catalog, o: Obj)
    requires AddsOnlyFound(u, bases, scope, a, b)
    requires o in b.Get(c) && o !in a.Get(c)
    ensures SelectedForSome(o, bases) && FoundIn(u, scope, o)
  {
  }

  /** Two successive steps that each add only found entries add only
      found entries together, over the union of their root names and
      scopes. */
  lemma AddsOnlyFoundChain(u: Universe, bases1: set<string>, bases2: set<string>, bases: set<string>,
                           s1: set<ModuleId>, s2: set<ModuleId>, s: set<ModuleId>,
                           a: Registry, b: Registry, c: Registry)
    requires AddsOnlyFound(u, bases1, s1, a, b) && AddsOnlyFound(u, bases2, s2, b, c)
    requires bases1 <= bases && bases2 <= bases
    requires s1 <= s && s2 <= s
    ensures AddsOnlyFound(u, bases, s, a, c)
  {
    forall k, o | o in c.Get(k) && o !in a.Get(k)
      ensures SelectedForSome(o, bases) && FoundIn(u, s, o)
    {
      var n, base;
      if o in b.Get(k) {
        AddsOnlyFoundAt(u, bases1, s1, a, b, k, o);
        n :| n in s1 && n in u && PublicIn(u[n], o);
        base :| base in bases1 && Selected(o, base);
      } else {
        AddsOnlyFoundAt(u, bases2, s2, b, c, k, o);
        n :| n in s2 && n in u && PublicIn(u[n], o);
        base :| base in bases2 && Selected(o, base);
      }
      assert n in s && base in bases;
    }
  }

  /** Soundness of one scan: whatever it adds to a catalog passes the
      discovery filter and is bound to a public name in the module being
      scanned or in a module the scan entered. */
  lemma {:induction false} ScanSound(u: Universe, m: ModuleId, i: nat, recurse: bool, base: string, st: Scan)
    requires m in u && i <= |u[m].members|
    ensures var r := ScanFrom(u, m, i, recurse, base, st);
      AddsOnlyFound(u, {base}, {m} + (r.seen - st.seen), st.reg, r.reg)
    decreases |u.Keys - st.seen|, |u[m].members| - i, 1
  {
    if i < |u[m].members| {
      var next := Visit(u, m, i, recurse, base, st);
      VisitSound(u, m, i, recurse, base, st);
      DiffShrinks(u.Keys, st.seen, next.seen);
      ScanSound(u, m, i + 1, recurse, base, next);
      var r := ScanFrom(u, m, i + 1, recurse, base, next);
      assert r == ScanFrom(u, m, i, recurse, base, st);
      AddsOnlyFoundChain(u, {base}, {base}, {base}, {m} + (next.seen - st.seen), {m} + (r.seen - next.seen),
                         {m} + (r.seen - st.seen), st.reg, next.reg, r.reg);
    }
  }

  lemma {:induction false} VisitSound(u: Universe, m: ModuleId, i: nat, recurse: bool, base: string, st: Scan)
    requires m in u && i < |u[m].members|
    ensures var r := Visit(u, m, i, recurse, base, st);
      AddsOnlyFound(u, {base}, {m} + (r.seen - st.seen), st.reg, r.reg)
    decreases |u.Keys - st.seen|, |u[m].members| - i, 0
  {
    var v := u[m].members[i].value;
    var r := Visit(u, m, i, recurse, base, st);
    if IsPrivate(u[m].members[i].key) {
      assert r == st;
    } else if Selected(v, base) {
      assert r == st.(reg := Register(st.reg, v).reg);
      assert PublicIn(u[m], v);
      assert SelectedForSome(v, {base});
      assert FoundIn(u, {m} + (r.seen - st.seen), v);
      forall c, o | o in r.reg.Get(c) && o !in st.reg.Get(c)
        ensures SelectedForSome(o, {base}) && FoundIn(u, {m} + (r.seen - st.seen), o)
      {
        assert o == v;
      }
    } else if !v.Class? && !v.BaseClass? && Enters(u, v, recurse, base, st.seen) {
      DiffShrinksStrictly(u.Keys, st.seen, v.id);
      var st1 := EnterState(st, v.id);
      ScanSound(u, v.id, 0, recurse, base, st1);
      assert r == ScanFrom(u, v.id, 0, recurse, base, st1);
      AddsOnlyFoundChain(u, {base}, {base}, {base}, {}, {v.id} + (r.seen - st1.seen), {m} + (r.seen - st.seen),
                         st.reg, st.reg, r.reg);
    } else {
      assert r == st;
    }
  }

  /** Completeness of one scan: every public member that passes the
      filter, in the rest of module `m` and in every module the scan
      entered, ends up in its catalog. */
  lemma {:induction false} ScanComplete(u: Universe, m: ModuleId, i: nat, recurse: bool, base: string, st: Scan)
    requires m in u && i <= |u[m].members|
    ensures var r := ScanFrom(u, m, i, recurse, base, st);
      && (forall j :: i <= j < |u[m].members| && Candidate(u[m].members[j], base) ==> Holds(r.reg, u[m].members[j].value))
      && (forall n :: n in r.seen - st.seen ==> CandidatesHeld(u[n], base, r.reg))
    decreases |u.Keys - st.seen|, |u[m].members| - i, 1
  {
    if i < |u[m].members| {
      var next := Visit(u, m, i, recurse, base, st);
      VisitComplete(u, m, i, recurse, base, st);
      DiffShrinks(u.Keys, st.seen, next.seen);
      ScanComplete(u, m, i + 1, recurse, base, next);
      var r := ScanFrom(u, m, i + 1, recurse, base, next);
      if Candidate(u[m].members[i], base) {
        HoldsGrows(next.reg, r.reg, u[m].members[i].value);
      }
      forall n | n in r.seen - st.seen
        ensures CandidatesHeld(u[n], base, r.reg)
      {
        if n in next.seen {
          forall j | 0 <= j < |u[n].members| && Candidate(u[n].members[j], base)
            ensures Holds(r.reg, u[n].members[j].value)
          {
            HoldsGrows(next.reg, r.reg, u[n].members[j].value);
          }
        }
      }
    }
  }

  lemma {:induction false} VisitComplete(u: Universe, m: ModuleId, i: nat, recurse: bool, base: string, st: Scan)
    requires m in u && i < |u[m].members|
    ensures var r := Visit(u, m, i, recurse, base, st);
      && (Candidate(u[m].members[i], base) ==> Holds(r.reg, u[m].members[i].value))
      && (forall n :: n in r.seen - st.seen ==> CandidatesHeld(u[n], base, r.reg))
    decreases |u.Keys - st.seen|, |u[m].members| - i, 0
  {
    var v := u[m].members[i].value;
    if !IsPrivate(u[m].members[i].key) && Selected(v, base) {
      RegisterHolds(st.reg, v, base);
    } else if !IsPrivate(u[m].members[i].key) && !v.Class? && !v.BaseClass?
              && Enters(u, v, recurse, base, st.seen) {
      DiffShrinksStrictly(u.Keys, st.seen, v.id);
      ScanComplete(u, v.id, 0, recurse, base, EnterState(st, v.id));
    }
  }

  /** A submodule that a visit enters ends up in the seen-set and in the
      log of entered modules, with every candidate member of it registered
      under the scan's root name. */
  lemma VisitEnters(u: Universe, m: ModuleId, i: nat, recurse: bool, base: string, st: Scan)
    requires m in u && i < |u[m].members|
    requires EntersAt(u, m, i, recurse, base, st)
    ensures var id := u[m].members[i].value.id;
      var r := Visit(u, m, i, recurse, base, st);
      && id in u && id !in st.seen
      && id in r.seen && id in r.entered
      && CandidatesHeld(u[id], base, r.reg)
  {
    var id := u[m].members[i].value.id;
    VisitIsScan(u, m, i, recurse, base, st);
    DiffShrinksStrictly(u.Keys, st.seen, id);
    var st1 := EnterState(st, id);
    var r := ScanFrom(u, id, 0, recurse, base, st1);
    ScanComplete(u, id, 0, recurse, base, st1);
    assert st1.entered[|st.entered|] == id;
    assert r.entered[|st.entered|] == id;
  }

  /** A single list or tuple argument stands for its items. */
  function Unpack(args: seq<Arg>): seq<Arg> {
    if |args| == 1 && args[0].Listing? then
      seq(|args[0].items|, k requires 0 <= k < |args[0].items| => Value(args[0].items[k]))
    else args
  }

  /** `inspect.ismodule(arg)`. */
  predicate IsModuleArg(a: Arg) {
    a.Value? && a.obj.ModuleObj?
  }

  /** The position of the first argument from `k` on that is not a module. */
  function FirstNonModule(mods: seq<Arg>, k: nat): (r: Option<nat>)
    requires k <= |mods|
    ensures r.None? <==> forall j :: k <= j < |mods| ==> IsModuleArg(mods[j])
    ensures r.Some? ==> k <= r.value < |mods| && !IsModuleArg(mods[r.value])
                        && forall j :: k <= j < r.value ==> IsModuleArg(mods[j])
    decreases |mods| - k
  {
    if k == |mods| then None
    else if !IsModuleArg(mods[k]) then Some(k)
    else FirstNonModule(mods, k + 1)
  }

  /** The module identities of a validated argument list. */
  function RootIds(mods: seq<Arg>): (r: seq<ModuleId>)
    requires forall j :: 0 <= j < |mods| ==> mods[j].Value? && mods[j].obj.ModuleObj?
    ensures |r| == |mods| && forall j :: 0 <= j < |mods| ==> r[j] == mods[j].obj.id
    decreases |mods|
  {
    if |mods| == 0 then [] else [mods[0].obj.id] + RootIds(mods[1..])
  }

  /** The sort key of a root: the dots in its name. */
  function Depth(u: Universe, m: ModuleId): int {
    if m in u then CountDots(u[m].name) else 0
  }

  /** `lambda x: x.__name__.count(".")`. */
  function DepthKey(u: Universe): ModuleId -> int {
    (m: ModuleId) => Depth(u, m)
  }

  /** The loop over the sorted roots: each root is added to the seen-set
      (whether or not an earlier root already reached it) and scanned with
      its own name as the base. */
  function ScanRoots(u: Universe, roots: seq<ModuleId>, recurse: bool, st: Scan): (r: Scan)
    requires forall k :: 0 <= k < |roots| ==> roots[k] in u
    ensures st.seen <= r.seen
    ensures Grows(st.reg, r.reg)
    ensures st.entered <= r.entered
    decreases |roots|
  {
    if |roots| == 0 then st
    else
      var root := roots[0];
      ScanRoots(u, roots[1..], recurse, ScanFrom(u, root, 0, recurse, u[root].name, st.(seen := st.seen + {root})))
  }

  lemma CandidatesHeldGrows(info: ModuleInfo, base: string, a: Registry, b: Registry)
    requires CandidatesHeld(info, base, a) && Grows(a, b)
    ensures CandidatesHeld(info, base, b)
  {
    forall j | 0 <= j < |info.members| && Candidate(info.members[j], base)
      ensures Holds(b, info.members[j].value)
    {
      HoldsGrows(a, b, info.members[j].value);
    }
  }

  /** Without recursion a scan enters nothing. */
  lemma {:induction false} ScanNoRecurse(u: Universe, m: ModuleId, i: nat, base: string, st: Scan)
    requires m in u && i <= |u[m].members|
    ensures var r := ScanFrom(u, m, i, false, base, st);
      r.seen == st.seen && r.entered == st.entered
    decreases |u[m].members| - i
  {
    if i < |u[m].members| {
      var next := Visit(u, m, i, false, base, st);
      assert next.seen == st.seen && next.entered == st.entered;
      ScanNoRecurse(u, m, i + 1, base, next);
    }
  }

  /** The root loop keeps the log of entered modules duplicate-free across
      all roots: the seen-set is shared. */
  lemma {:induction false} RootsLog(u: Universe, roots: seq<ModuleId>, recurse: bool, st: Scan)
    requires forall k :: 0 <= k < |roots| ==> roots[k] in u
    requires Logged(st)
    ensures var r := ScanRoots(u, roots, recurse, st);
      Logged(r) && st.entered <= r.entered
    decreases |roots|
  {
    if |roots| > 0 {
      var root := roots[0];
      var st' := st.(seen := st.seen + {root});
      ScanLog(u, root, 0, recurse, u[root].name, st');
      RootsLog(u, roots[1..], recurse, ScanFrom(u, root, 0, recurse, u[root].name, st'));
    }
  }

  /** Without recursion the root loop enters nothing and sees exactly the
      roots. */
  lemma {:induction false} RootsNoRecurse(u: Universe, roots: seq<ModuleId>, st: Scan)
    requires forall k :: 0 <= k < |roots| ==> roots[k] in u
    ensures var r := ScanRoots(u, roots, false, st);
      r.entered == st.entered && r.seen == st.seen + Elems(roots)
    decreases |roots|
  {
    if |roots| > 0 {
      var root := roots[0];
      var st' := st.(seen := st.seen + {root});
      ScanNoRecurse(u, root, 0, u[root].name, st');
      RootsNoRecurse(u, roots[1..], ScanFrom(u, root, 0, false, u[root].name, st'));
      assert Elems(roots) == {root} + Elems(roots[1..]);
    }
  }

  /** `o` is bound to a public name in a module of `scope` whose name
      starts with `base`. */
  predicate FoundUnder(u: Universe, scope: set<ModuleId>, base: string, o: Obj) {
    exists n :: n in scope && n in u && StartsWith(u[n].name, base) && PublicIn(u[n], o)
  }

  /** `o` passes the filter for the name of one of the roots, and is bound
      publicly in a module of `scope` that lies under that same root's
      name. */
  predicate FromSomeRoot(u: Universe, roots: seq<ModuleId>, scope: set<ModuleId>, o: Obj) {
    exists k :: 0 <= k < |roots| && roots[k] in u
      && Selected(o, u[roots[k]].name) && FoundUnder(u, scope, u[roots[k]].name, o)
  }

  /** Every entry of `b` missing from `a` comes from one of the roots. */
  predicate AddsOnlyRootFound(u: Universe, roots: seq<ModuleId>, scope: set<ModuleId>, a: Registry, b: Registry) {
    forall c, o :: o in b.Get(c) && o !in a.Get(c) ==> FromSomeRoot(u, roots, scope, o)
  }

  /** Soundness of the root loop: every new catalog entry passes the
      filter for the name of one root and is bound to a public name in a
      scanned module whose name starts with that same root's name. */
  lemma {:induction false} RootsSound(u: Universe, roots: seq<ModuleId>, recurse: bool, st: Scan)
    requires forall k :: 0 <= k < |roots| ==> roots[k] in u
    ensures var r := ScanRoots(u, roots, recurse, st);
      AddsOnlyRootFound(u, roots, r.seen, st.reg, r.reg)
    decreases |roots|
  {
    var r := ScanRoots(u, roots, recurse, st);
    if |roots| > 0 {
      var root := roots[0];
      var base := u[root].name;
      var st' := st.(seen := st.seen + {root});
      var r1 := ScanFrom(u, root, 0, recurse, base, st');
      var scope1 := {root} + (r1.seen - st'.seen);
      ScanSound(u, root, 0, recurse, base, st');
      ScanEntersMatching(u, root, 0, recurse, base, st');
      RootsSound(u, roots[1..], recurse, r1);
      forall c, o | o in r.reg.Get(c) && o !in st.reg.Get(c)
        ensures FromSomeRoot(u, roots, r.seen, o)
      {
        if o in r1.reg.Get(c) {
          AddsOnlyFoundAt(u, {base}, scope1, st'.reg, r1.reg, c, o);
          var n :| n in scope1 && n in u && PublicIn(u[n], o);
          assert StartsWith(u[n].name, base) by {
            if n == root {
              assert u[n].name[..|base|] == base;
            }
          }
          assert FoundUnder(u, r.seen, u[roots[0]].name, o);
        } else {
          assert FromSomeRoot(u, roots[1..], r.seen, o);
          var k :| 0 <= k < |roots[1..]| && roots[1..][k] in u
            && Selected(o, u[roots[1..][k]].name) && FoundUnder(u, r.seen, u[roots[1..][k]].name, o);
          assert roots[k + 1] == roots[1..][k];
        }
      }
    }
  }

  /** The module `n` was entered by recursion below the name of one of the
      roots. */
  predicate EnteredUnderRoot(u: Universe, roots: seq<ModuleId>, recurse: bool, n: ModuleId) {
    n in u && recurse && exists k :: 0 <= k < |roots| && roots[k] in u && StartsWith(u[n].name, u[roots[k]].name)
  }

  /** The root loop enters a module only with recursion on and only when
      the module's name starts with the name of some root. */
  lemma {:induction false} RootsEntersMatching(u: Universe, roots: seq<ModuleId>, recurse: bool, st: Scan)
    requires forall k :: 0 <= k < |roots| ==> roots[k] in u
    requires Logged(st)
    ensures var r := ScanRoots(u, roots, recurse, st);
      forall n :: n in r.entered && n !in st.entered ==> EnteredUnderRoot(u, roots, recurse, n)
    decreases |roots|
  {
    var r := ScanRoots(u, roots, recurse, st);
    if |roots| > 0 {
      var root := roots[0];
      var base := u[root].name;
      var st' := st.(seen := st.seen + {root});
      var r1 := ScanFrom(u, root, 0, recurse, base, st');
      ScanLog(u, root, 0, recurse, base, st');
      ScanEntersMatching(u, root, 0, recurse, base, st');
      RootsEntersMatching(u, roots[1..], recurse, r1);
      forall n | n in r.entered && n !in st.entered
        ensures EnteredUnderRoot(u, roots, recurse, n)
      {
        if n in r1.entered {
          assert n in r1.seen - st'.seen;
          assert roots[0] == root;
        } else {
          var k :| 0 <= k < |roots[1..]| && roots[1..][k] in u && StartsWith(u[n].name, u[roots[1..][k]].name);
          assert roots[k + 1] == roots[1..][k];
        }
      }
    }
  }

  /** The module `n` has all its candidates registered for the name of
      one of the roots. */
  predicate HeldForSomeRoot(u: Universe, roots: seq<ModuleId>, n: ModuleId, reg: Registry)
    requires n in u
  {
    exists k :: 0 <= k < |roots| && roots[k] in u && CandidatesHeld(u[n], u[roots[k]].name, reg)
  }

  /** Completeness of the root loop: each root has every candidate member
      registered under its own name, and every module the loop scanned has
      them registered under the name of some root. */
  lemma {:induction false} RootsComplete(u: Universe, roots: seq<ModuleId>, recurse: bool, st: Scan)
    requires forall k :: 0 <= k < |roots| ==> roots[k] in u
    ensures var r := ScanRoots(u, roots, recurse, st);
      && (forall k :: 0 <= k < |roots| ==> CandidatesHeld(u[roots[k]], u[roots[k]].name, r.reg))
      && (forall n :: n in r.seen - st.seen ==> n in u && HeldForSomeRoot(u, roots, n, r.reg))
    decreases |roots|
  {
    var r := ScanRoots(u, roots, recurse, st);
    if |roots| > 0 {
      var root := roots[0];
      var st' := st.(seen := st.seen + {root});
      var r1 := ScanFrom(u, root, 0, recurse, u[root].name, st');
      ScanComplete(u, root, 0, recurse, u[root].name, st');
      RootsComplete(u, roots[1..], recurse, r1);
      assert CandidatesHeld(u[root], u[root].name, r1.reg);
      CandidatesHeldGrows(u[root], u[root].name, r1.reg, r.reg);
      forall k | 0 <= k < |roots|
        ensures CandidatesHeld(u[roots[k]], u[roots[k]].name, r.reg)
      {
        if k > 0 {
          assert roots[k] == roots[1..][k - 1];
        }
      }
      forall n | n in r.seen - st.seen
        ensures n in u && HeldForSomeRoot(u, roots, n, r.reg)
      {
        if n in r1.seen {
          if n != root {
            assert CandidatesHeld(u[n], u[root].name, r1.reg);
          }
          CandidatesHeldGrows(u[n], u[root].name, r1.reg, r.reg);
          assert roots[0] == root;
        } else {
          assert n in r.seen - r1.seen;
          assert HeldForSomeRoot(u, roots[1..], n, r.reg);
          var k :| 0 <= k < |roots[1..]| && roots[1..][k] in u && CandidatesHeld(u[n], u[roots[1..][k]].name, r.reg);
          assert roots[k + 1] == roots[1..][k];
        }
      }
    }
  }

  /** The roots come out shallowest first: a permutation of `ids`, sorted
      by depth, and stable among roots of equal depth. */
  ghost predicate OrderMeets(u: Universe, ids: seq<ModuleId>, order: seq<ModuleId>) {
    && multiset(order) == multiset(ids)
    && SortedBy(order, DepthKey(u))
    && (forall k :: WithKey(order, DepthKey(u), k) == WithKey(ids, DepthKey(u), k))
  }

  /** What the traversal of roots `ids` promises: catalogs only grow; no
      module is entered twice; without recursion only the roots are seen;
      recursion enters only modules below a root's name; every new entry
      passes the filter for one root and was found in a scanned module
      below that root's name; every root has all its candidates registered
      under its own name, and every scanned module under some root's name. */
  ghost predicate ScanMeets(u: Universe, reg: Registry, ids: seq<ModuleId>, recurse: bool, fin: Scan)
    requires forall j :: 0 <= j < |ids| ==> ids[j] in u
  {
    && Grows(reg, fin.reg)
    && NoDup(fin.entered)
    && (!recurse ==> fin.entered == [] && fin.seen == Elems(ids))
    && (forall n :: n in fin.entered ==> EnteredUnderRoot(u, ids, recurse, n))
    && AddsOnlyRootFound(u, ids, fin.seen, reg, fin.reg)
    && (forall j :: 0 <= j < |ids| ==> CandidatesHeld(u[ids[j]], u[ids[j]].name, fin.reg))
    && (forall n :: n in fin.seen ==> n in u && HeldForSomeRoot(u, ids, n, fin.reg))
  }

  /** `sorted(modules, key=...)` on the roots. */
  function SortRoots(u: Universe, ids: seq<ModuleId>): (order: seq<ModuleId>)
    requires forall j :: 0 <= j < |ids| ==> ids[j] in u
    ensures OrderMeets(u, ids, order)
    ensures forall k :: 0 <= k < |order| ==> order[k] in u
  {
    var order := SortBy(ids, DepthKey(u));
    assert forall k :: 0 <= k < |order| ==> order[k] in u by {
      forall k | 0 <= k < |order| ensures order[k] in u {
        assert order[k] in multiset(ids);
      }
    }
    assert forall k :: WithKey(order, DepthKey(u), k) == WithKey(ids, DepthKey(u), k) by {
      forall k ensures WithKey(order, DepthKey(u), k) == WithKey(ids, DepthKey(u), k) {
        SortByStable(ids, DepthKey(u), k);
      }
    }
    order
  }

  /** Two orderings of the same roots hold the same modules. */
  lemma PermutedRoots(u: Universe, ids: seq<ModuleId>, order: seq<ModuleId>)
    requires multiset(order) == multiset(ids)
    ensures Elems(order) == Elems(ids)
    ensures forall m :: m in order <==> m in ids
  {
    assert forall m :: m in order <==> m in multiset(order);
    assert forall m :: m in ids <==> m in multiset(ids);
  }

  /** The position in `ids` of the root at position `k` of `order`. */
  lemma SameRoot(ids: seq<ModuleId>, order: seq<ModuleId>, k: nat) returns (j: nat)
    requires forall m :: m in order <==> m in ids
    requires k < |order|
    ensures j < |ids| && ids[j] == order[k]
  {
    assert order[k] in ids;
    j :| 0 <= j < |ids| && ids[j] == order[k];
  }

  /** Everything stated root by root carries over from one ordering of the
      roots to another. */
  lemma PermutedFacts(u: Universe, ids: seq<ModuleId>, order: seq<ModuleId>, recurse: bool,
                      scope: set<ModuleId>, entered: seq<ModuleId>, a: Registry, b: Registry)
    requires forall j :: 0 <= j < |ids| ==> ids[j] in u
    requires forall k :: 0 <= k < |order| ==> order[k] in u
    requires forall m :: m in order <==> m in ids
    requires forall k :: 0 <= k < |order| ==> CandidatesHeld(u[order[k]], u[order[k]].name, b)
    requires forall n :: n in scope ==> n in u && HeldForSomeRoot(u, order, n, b)
    requires forall n :: n in entered ==> EnteredUnderRoot(u, order, recurse, n)
    requires AddsOnlyRootFound(u, order, scope, a, b)
    ensures forall j :: 0 <= j < |ids| ==> CandidatesHeld(u[ids[j]], u[ids[j]].name, b)
    ensures forall n :: n in scope ==> n in u && HeldForSomeRoot(u, ids, n, b)
    ensures forall n :: n in entered ==> EnteredUnderRoot(u, ids, recurse, n)
    ensures AddsOnlyRootFound(u, ids, scope, a, b)
  {
    forall j | 0 <= j < |ids|
      ensures CandidatesHeld(u[ids[j]], u[ids[j]].name, b)
    {
      var k := SameRoot(order, ids, j);
    }
    forall n | n in scope
      ensures n in u && HeldForSomeRoot(u, ids, n, b)
    {
      var k :| 0 <= k < |order| && order[k] in u && CandidatesHeld(u[n], u[order[k]].name, b);
      var j := SameRoot(ids, order, k);
    }
    forall n | n in entered
      ensures EnteredUnderRoot(u, ids, recurse, n)
    {
      var k :| 0 <= k < |order| && order[k] in u && StartsWith(u[n].name, u[order[k]].name);
      var j := SameRoot(ids, order, k);
    }
    forall c, o | o in b.Get(c) && o !in a.Get(c)
      ensures FromSomeRoot(u, ids, scope, o)
    {
      assert FromSomeRoot(u, order, scope, o);
      var k :| 0 <= k < |order| && order[k] in u
        && Selected(o, u[order[k]].name) && FoundUnder(u, scope, u[order[k]].name, o);
      var j := SameRoot(ids, order, k);
    }
  }

  /** Scanning any ordering of the roots meets the traversal promises for
      the roots as given. */
  lemma ScanRootsMeets(u: Universe, reg: Registry, ids: seq<ModuleId>, order: seq<ModuleId>, recurse: bool)
    requires forall j :: 0 <= j < |ids| ==> ids[j] in u
    requires forall k :: 0 <= k < |order| ==> order[k] in u
    requires multiset(order) == multiset(ids)
    ensures ScanMeets(u, reg, ids, recurse, ScanRoots(u, order, recurse, Scan(reg, {}, [])))
  {
    var st := Scan(reg, {}, []);
    var fin := ScanRoots(u, order, recurse, st);
    RootsLog(u, order, recurse, st);
    if !recurse {
      RootsNoRecurse(u, order, st);
    }
    RootsEntersMatching(u, order, recurse, st);
    RootsSound(u, order, recurse, st);
    RootsComplete(u, order, recurse, st);
    PermutedRoots(u, ids, order);
    PermutedFacts(u, ids, order, recurse, fin.seen, fin.entered, reg, fin.reg);
  }

  /** The sorted roots and the final traversal state of a successful call. */
  datatype Discovery = Discovery(order: seq<ModuleId>, final: Scan)

  /** Every module bound in a module of `u` is itself in `u`: the universe
      is all the modules of the process. */
  predicate Closed(u: Universe) {
    forall m, j :: m in u && 0 <= j < |u[m].members| && u[m].members[j].value.ModuleObj? ==>
      u[m].members[j].value.id in u
  }

  /** Sorting the roots by depth and scanning them, in that order, from an
      empty seen-set. */
  function DiscoverRoots(u: Universe, reg: Registry, ids: seq<ModuleId>, recurse: bool): (d: Discovery)
    requires Closed(u)
    requires forall j :: 0 <= j < |ids| ==> ids[j] in u
    ensures OrderMeets(u, ids, d.order)
    ensures forall k :: 0 <= k < |d.order| ==> d.order[k] in u
    ensures d.final == ScanRoots(u, d.order, recurse, Scan(reg, {}, []))
    ensures ScanMeets(u, reg, ids, recurse, d.final)
  {
    var order := SortRoots(u, ids);
    ScanRootsMeets(u, reg, ids, order, recurse);
    Discovery(order, ScanRoots(u, order, recurse, Scan(reg, {}, [])))
  }

  /** The argument check of `register_from_modules`: after unpacking a
      single list or tuple, every argument must be a module; the first one
      that is not is reported. On success, the modules' identities. */
  function ValidateArgs(args: seq<Arg>): (r: Result<seq<ModuleId>, RegistryError>)
    ensures var mods := Unpack(args);
      r.Err? <==> exists j :: 0 <= j < |mods| && !IsModuleArg(mods[j])
    ensures var mods := Unpack(args);
      r.Err? ==>
        && r.error.NotAModule?
        && r.error.position < |mods|
        && !IsModuleArg(mods[r.error.position])
        && forall j :: 0 <= j < r.error.position ==> IsModuleArg(mods[j])
    ensures var mods := Unpack(args);
      r.Ok? ==> |r.value| == |mods| && forall j :: 0 <= j < |mods| ==> mods[j] == Value(ModuleObj(r.value[j]))
  {
    var mods := Unpack(args);
    match FirstNonModule(mods, 0)
    case Some(k) => Err(NotAModule(k))
    case None => Ok(RootIds(mods))
  }

  /** `register_from_modules(*args, recurse=recurse)`. All arguments are
      checked before anything is registered; on success the roots are
      scanned shallowest first with one seen-set for the whole call. */
  function RegisterFromModules(u: Universe, reg: Registry, args: seq<Arg>, recurse: bool): (e: Effect<Discovery>)
    requires Closed(u)
    requires ValidateArgs(args).Ok? ==> forall j :: 0 <= j < |ValidateArgs(args).value| ==> ValidateArgs(args).value[j] in u
    ensures e.outcome.Err? <==> ValidateArgs(args).Err?
    ensures e.outcome.Err? ==> e.reg == reg && e.outcome.error == ValidateArgs(args).error
    ensures e.outcome.Ok? ==>
      && e.reg == e.outcome.value.final.reg
      && OrderMeets(u, ValidateArgs(args).value, e.outcome.value.order)
      && (forall k :: 0 <= k < |e.outcome.value.order| ==> e.outcome.value.order[k] in u)
      && e.outcome.value.final == ScanRoots(u, e.outcome.value.order, recurse, Scan(reg, {}, []))
      && ScanMeets(u, reg, ValidateArgs(args).value, recurse, e.outcome.value.final)
  {
    match ValidateArgs(args)
    case Err(err) => Effect(reg, Err(err))
    case Ok(ids) =>
      var d := DiscoverRoots(u, reg, ids, recurse);
      Effect(d.final.reg, Ok(d))
  }
}
