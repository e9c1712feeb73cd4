/** Worked discovery scenarios on small module graphs. */
module DiscoveryExamples {
  import opened Results
  import opened PluginRegistry
  import opened ModuleDiscovery
  import opened Collections
  import Text

  const Foo: Obj := Class(1, "plugin", {AbstractTypeBase})
  const FooImpl: Obj := Class(2, "plugin", {ConcreteTypeBase})
  const Helper: Obj := Class(3, "plugin", {ConcreteTypeBase})

  /** One module exporting an abstract type, a concrete type bound to it,
      and a private helper that also extends the concrete-type base. */
  const PluginModule: Universe :=
    map[0 := ModuleInfo("plugin", [Member("Foo", Foo), Member("FooImpl", FooImpl), Member("_Helper", Helper)])]

  const Roots: seq<ModuleId> := [0]

  const Reg1: Registry := Fresh().(abstractTypes := {Foo})
  const Reg2: Registry := Reg1.(concreteTypes := {FooImpl})

  lemma PluginMembers()
    ensures 0 in PluginModule && |PluginModule[0].members| == 3
    ensures PluginModule[0].members[0] == Member("Foo", Foo)
    ensures PluginModule[0].members[1] == Member("FooImpl", FooImpl)
    ensures PluginModule[0].members[2] == Member("_Helper", Helper)
  {
  }

  lemma VisitFoo()
    ensures Visit(PluginModule, 0, 0, true, "plugin", Scan(Fresh(), {0}, [])) == Scan(Reg1, {0}, [])
  {
    PluginMembers();
    assert !Text.IsPrivate("Foo") by { assert "Foo"[..1][0] == 'F'; }
    assert Selected(Foo, "plugin");
    assert Classify(Foo) == Some(AbstractTypes);
  }

  lemma VisitFooImpl()
    ensures Visit(PluginModule, 0, 1, true, "plugin", Scan(Reg1, {0}, [])) == Scan(Reg2, {0}, [])
  {
    PluginMembers();
    assert !Text.IsPrivate("FooImpl") by { assert "FooImpl"[..1][0] == 'F'; }
    assert Selected(FooImpl, "plugin");
    assert Classify(FooImpl) == Some(ConcreteTypes);
  }

  lemma VisitHelper()
    ensures Visit(PluginModule, 0, 2, true, "plugin", Scan(Reg2, {0}, [])) == Scan(Reg2, {0}, [])
  {
    PluginMembers();
    assert Text.IsPrivate("_Helper");
  }

  lemma ScanPlugin()
    ensures ScanFrom(PluginModule, 0, 0, true, "plugin", Scan(Fresh(), {0}, [])) == Scan(Reg2, {0}, [])
  {
    var u := PluginModule;
    PluginMembers();
    VisitFoo();
    VisitFooImpl();
    VisitHelper();
    assert ScanFrom(u, 0, 3, true, "plugin", Scan(Reg2, {0}, [])) == Scan(Reg2, {0}, []);
    assert ScanFrom(u, 0, 2, true, "plugin", Scan(Reg2, {0}, [])) == Scan(Reg2, {0}, []);
    assert ScanFrom(u, 0, 1, true, "plugin", Scan(Reg1, {0}, [])) == Scan(Reg2, {0}, []);
  }

  lemma ValidatePlugin()
    ensures ValidateArgs([Value(ModuleObj(0))]) == Ok(Roots)
  {
    var args := [Value(ModuleObj(0))];
    assert Unpack(args) == args;
    assert FirstNonModule(args, 1) == None;
    assert RootIds(args) == Roots;
  }

  lemma SortPlugin()
    ensures SortRoots(PluginModule, Roots) == Roots
  {
  }

  lemma RootsPlugin()
    ensures ScanRoots(PluginModule, Roots, true, Scan(Fresh(), {}, [])) == Scan(Reg2, {0}, [])
  {
    PluginMembers();
    ScanPlugin();
    assert PluginModule[0].name == "plugin";
    assert Scan(Fresh(), {}, []).(seen := {} + {0}) == Scan(Fresh(), {0}, []);
    assert Roots[1..] == [];
    assert ScanRoots(PluginModule, [], true, Scan(Reg2, {0}, [])) == Scan(Reg2, {0}, []);
  }

  lemma DiscoverPlugin()
    ensures DiscoverRoots(PluginModule, Fresh(), Roots, true).final.reg == Reg2
  {
    PluginMembers();
    SortPlugin();
    RootsPlugin();
  }

  /** Discovery registers the abstract type and the concrete type; the
      private helper is left out. */
  lemma PluginClosed()
    ensures Closed(PluginModule)
  {
    PluginMembers();
  }

  lemma PrivateHelperSkipped()
    ensures var e := RegisterFromModules(PluginModule, Fresh(), [Value(ModuleObj(0))], true);
      e.outcome.Ok? && e.reg.concreteTypes == {FooImpl} && e.reg.abstractTypes == {Foo}
  {
    PluginClosed();
    ValidatePlugin();
    PluginMembers();
    DiscoverPlugin();
  }

  /** A root `metagraph` that re-exports a module named `metagraphx`,
      which defines a concrete type. */
  const Stray: Obj := Class(10, "metagraphx", {ConcreteTypeBase})

  const Lookalike: Universe := map[
    0 := ModuleInfo("metagraph", [Member("sub", ModuleObj(1))]),
    1 := ModuleInfo("metagraphx", [Member("X", Stray)])]

  lemma VisitStray()
    ensures Visit(Lookalike, 1, 0, true, "metagraph", Scan(Fresh(), {0, 1}, [1])) == Scan(Fresh(), {0, 1}, [1])
  {
    assert Lookalike[1].members[0] == Member("X", Stray);
    assert !FromPackage("metagraphx", "metagraph") by {
      assert "metagraphx"[9] == 'x';
      assert ("metagraph" + ".")[9] == '.';
    }
  }

  lemma VisitLookalike()
    ensures Visit(Lookalike, 0, 0, true, "metagraph", Scan(Fresh(), {0}, [])) == Scan(Fresh(), {0, 1}, [1])
  {
    var u := Lookalike;
    assert u[0].members[0] == Member("sub", ModuleObj(1));
    assert !Text.IsPrivate("sub") by { assert "sub"[..1][0] == 's'; }
    assert Text.StartsWith(u[1].name, "metagraph") by {
      assert u[1].name[..9] == "metagraph";
    }
    assert EnterState(Scan(Fresh(), {0}, []), 1) == Scan(Fresh(), {0, 1}, [1]);
    VisitStray();
    assert ScanFrom(u, 1, 1, true, "metagraph", Scan(Fresh(), {0, 1}, [1])) == Scan(Fresh(), {0, 1}, [1]);
  }

  /** The recursion test has no "." boundary but the class origin test
      does: recursion from `metagraph` enters `metagraphx`, and the class
      defined there is not registered. */
  lemma PrefixWithoutBoundary()
    ensures ScanRoots(Lookalike, Roots, true, Scan(Fresh(), {}, [])) == Scan(Fresh(), {0, 1}, [1])
  {
    var u := Lookalike;
    assert u[0].name == "metagraph";
    assert Scan(Fresh(), {}, []).(seen := {} + {0}) == Scan(Fresh(), {0}, []);
    VisitLookalike();
    assert |u[0].members| == 1;
    assert ScanFrom(u, 0, 1, true, "metagraph", Scan(Fresh(), {0, 1}, [1])) == Scan(Fresh(), {0, 1}, [1]);
    assert Roots[1..] == [];
  }

  const RegStray: Registry := Fresh().(concreteTypes := {Stray})

  lemma VisitStrayOwnRoot()
    ensures Visit(Lookalike, 1, 0, true, "metagraphx", Scan(Fresh(), {0, 1}, [1])) == Scan(RegStray, {0, 1}, [1])
  {
    assert Lookalike[1].members[0] == Member("X", Stray);
    assert !Text.IsPrivate("X") by { assert "X"[..1][0] == 'X'; }
    assert Selected(Stray, "metagraphx");
    assert Classify(Stray) == Some(ConcreteTypes);
  }

  lemma MetagraphFlat()
    ensures Depth(Lookalike, 0) == 0
  {
    assert Lookalike[0].name == "metagraph";
    assert '.' !in "metagraph";
  }

  /** Sorting two roots keeps them in place unless the first is deeper. */
  lemma SortTwo(u: Universe, a: ModuleId, b: ModuleId)
    requires a in u && b in u
    ensures SortRoots(u, [a, b]) == if Depth(u, a) <= Depth(u, b) then [a, b] else [b, a]
  {
    var one: seq<ModuleId> := [b];
    var none: seq<ModuleId> := [];
    assert SortBy(none, DepthKey(u)) == none;
    assert SortBy(one, DepthKey(u)) == one by {
      assert one[1..] == none;
    }
    assert [a, b][1..] == one;
    assert one[1..] == none;
    assert SortBy([a, b], DepthKey(u)) == InsertBy(a, one, DepthKey(u));
  }

  lemma LookalikeSorted()
    ensures SortRoots(Lookalike, [0, 1]) == [0, 1]
  {
    MetagraphFlat();
    SortTwo(Lookalike, 0, 1);
  }

  lemma ScanStrayOwnRoot()
    ensures ScanRoots(Lookalike, [1], true, Scan(Fresh(), {0, 1}, [1])) == Scan(RegStray, {0, 1}, [1])
  {
    var u := Lookalike;
    var s1 := Scan(Fresh(), {0, 1}, [1]);
    assert u[1].name == "metagraphx";
    assert s1.(seen := s1.seen + {1}) == s1;
    VisitStrayOwnRoot();
    assert |u[1].members| == 1;
    assert ScanFrom(u, 1, 1, true, "metagraphx", Scan(RegStray, {0, 1}, [1])) == Scan(RegStray, {0, 1}, [1]);
    assert [1][1..] == [];
  }

  /** A root is scanned under its own name even when an earlier root
      already entered it: `metagraphx`, entered from `metagraph` without
      registering anything, is scanned again as the second root, and its
      class is registered then. */
  lemma RootRescanned()
    ensures ScanRoots(Lookalike, [0, 1], true, Scan(Fresh(), {}, [])) == Scan(RegStray, {0, 1}, [1])
  {
    var u := Lookalike;
    var s1 := Scan(Fresh(), {0, 1}, [1]);
    PrefixWithoutBoundary();
    assert u[0].name == "metagraph";
    var x := ScanFrom(u, 0, 0, true, "metagraph", Scan(Fresh(), {0}, []));
    assert Roots[1..] == [] && Roots[0] == 0;
    assert Scan(Fresh(), {}, []).(seen := {} + {0}) == Scan(Fresh(), {0}, []);
    assert ScanRoots(u, Roots, true, Scan(Fresh(), {}, [])) == ScanRoots(u, [], true, x);
    assert x == s1;
    assert Scan(Fresh(), {}, []).(seen := {} + {0}) == Scan(Fresh(), {0}, []);
    ScanStrayOwnRoot();
    assert [0, 1][1..] == [1];
  }

  /** Two modules that bind each other. */
  const Cycle: Universe := map[
    0 := ModuleInfo("p", [Member("q", ModuleObj(1))]),
    1 := ModuleInfo("p.q", [Member("back", ModuleObj(0))])]

  lemma VisitBack()
    ensures Visit(Cycle, 1, 0, true, "p", Scan(Fresh(), {0, 1}, [1])) == Scan(Fresh(), {0, 1}, [1])
  {
    assert Cycle[1].members[0] == Member("back", ModuleObj(0));
    assert !Text.IsPrivate("back") by { assert "back"[..1][0] == 'b'; }
  }

  /** The scan of a cyclic module graph ends, entering the submodule once
      and not re-entering the root it points back to. */
  lemma CycleEntersOnce()
    ensures Closed(Cycle)
    ensures ScanRoots(Cycle, [0], true, Scan(Fresh(), {}, [])) == Scan(Fresh(), {0, 1}, [1])
  {
    var u := Cycle;
    var s1 := Scan(Fresh(), {0, 1}, [1]);
    assert u[0].name == "p";
    assert u[0].members[0] == Member("q", ModuleObj(1));
    assert !Text.IsPrivate("q") by { assert "q"[..1][0] == 'q'; }
    assert Text.StartsWith(u[1].name, "p") by { assert u[1].name[..1] == "p"; }
    assert Scan(Fresh(), {}, []).(seen := {} + {0}) == Scan(Fresh(), {0}, []);
    assert EnterState(Scan(Fresh(), {0}, []), 1) == s1;
    VisitBack();
    assert ScanFrom(u, 1, 1, true, "p", s1) == s1;
    assert Visit(u, 0, 0, true, "p", Scan(Fresh(), {0}, [])) == s1;
    assert ScanFrom(u, 0, 1, true, "p", s1) == s1;
    assert [0][1..] == [];
  }

  /** A package `A` that binds its subpackage `A.B`; `A.B` binds a
      concrete type defined in `A.y`, a sibling of `A.B` inside `A`. */
  const Sibling: Obj := Class(5, "A.y", {ConcreteTypeBase})

  const Nested: Universe := map[
    0 := ModuleInfo("A", [Member("B", ModuleObj(1))]),
    1 := ModuleInfo("A.B", [Member("C", Sibling)])]

  const RegSibling: Registry := Fresh().(concreteTypes := {Sibling})

  lemma NestedMembers()
    ensures Nested[0].name == "A" && Nested[0].members == [Member("B", ModuleObj(1))]
    ensures Nested[1].name == "A.B" && Nested[1].members == [Member("C", Sibling)]
    ensures !Text.IsPrivate("B") && !Text.IsPrivate("C")
  {
    assert "B"[..1][0] == 'B';
    assert "C"[..1][0] == 'C';
  }

  /** Under the name `A` the sibling's class passes the origin test. */
  lemma VisitSiblingUnderA()
    ensures Visit(Nested, 1, 0, true, "A", Scan(Fresh(), {0, 1}, [1])) == Scan(RegSibling, {0, 1}, [1])
  {
    NestedMembers();
    assert Text.StartsWith("A.y", "A" + ".") by { assert "A.y"[..2] == "A."; }
    assert Selected(Sibling, "A");
    assert Classify(Sibling) == Some(ConcreteTypes);
  }

  /** Under the name `A.B` it does not, whatever the state. */
  lemma VisitSiblingUnderAB(st: Scan)
    ensures Visit(Nested, 1, 0, true, "A.B", st) == st
  {
    NestedMembers();
    assert !FromPackage("A.y", "A.B") by {
      assert "A.y"[2] != "A.B"[2];
    }
  }

  lemma NestedClosed()
    ensures Closed(Nested)
  {
    NestedMembers();
  }

  lemma NestedDepths()
    ensures Depth(Nested, 0) == 0 && Depth(Nested, 1) == 1
  {
    NestedMembers();
    assert Text.CountDots("A.B") == 1 by {
      assert "A.B"[1..] == ".B";
      assert ".B"[1..] == "B";
    }
    assert '.' !in "A";
  }

  lemma NestedSorted()
    ensures SortRoots(Nested, [1, 0]) == [0, 1]
  {
    NestedDepths();
    SortTwo(Nested, 1, 0);
  }

  /** Shallowest first: `A` is scanned before `A.B`, so recursion reaches
      `A.B` under the name `A` and the sibling's class is registered. */
  lemma ScanNestedSorted()
    ensures ScanRoots(Nested, [0, 1], true, Scan(Fresh(), {}, [])) == Scan(RegSibling, {0, 1}, [1])
  {
    var u := Nested;
    var s1 := Scan(RegSibling, {0, 1}, [1]);
    NestedMembers();
    assert Text.StartsWith(u[1].name, "A") by { assert u[1].name[..1] == "A"; }
    assert Scan(Fresh(), {}, []).(seen := {} + {0}) == Scan(Fresh(), {0}, []);
    assert EnterState(Scan(Fresh(), {0}, []), 1) == Scan(Fresh(), {0, 1}, [1]);
    VisitSiblingUnderA();
    assert ScanFrom(u, 1, 1, true, "A", s1) == s1;
    assert Visit(u, 0, 0, true, "A", Scan(Fresh(), {0}, [])) == s1;
    assert ScanFrom(u, 0, 1, true, "A", s1) == s1;
    assert s1.(seen := s1.seen + {1}) == s1;
    VisitSiblingUnderAB(s1);
    assert ScanFrom(u, 1, 1, true, "A.B", s1) == s1;
    assert [0, 1][1..] == [1];
    assert [1][1..] == [];
  }

  /** In the order given, `A.B` is scanned first under its own name, and
      by the time `A` is scanned it is already seen: nothing is
      registered. */
  lemma ScanNestedAsGiven()
    ensures ScanRoots(Nested, [1, 0], true, Scan(Fresh(), {}, [])) == Scan(Fresh(), {0, 1}, [])
  {
    var u := Nested;
    var s1 := Scan(Fresh(), {1}, []);
    var s2 := Scan(Fresh(), {0, 1}, []);
    NestedMembers();
    assert Scan(Fresh(), {}, []).(seen := {} + {1}) == s1;
    VisitSiblingUnderAB(s1);
    assert ScanFrom(u, 1, 1, true, "A.B", s1) == s1;
    assert s1.(seen := s1.seen + {0}) == s2;
    assert Visit(u, 0, 0, true, "A", s2) == s2;
    assert ScanFrom(u, 0, 1, true, "A", s2) == s2;
    assert [1, 0][1..] == [0];
    assert [0][1..] == [];
  }

  /** The order of the roots matters: `register_from_modules(A.B, A)`
      registers the sibling's class, which scanning the roots as given
      would miss. */
  lemma ShallowestFirst()
    ensures var e := RegisterFromModules(Nested, Fresh(), [Value(ModuleObj(1)), Value(ModuleObj(0))], true);
      e.outcome.Ok? && e.outcome.value.order == [0, 1] && e.reg == RegSibling
    ensures ScanRoots(Nested, [1, 0], true, Scan(Fresh(), {}, [])).reg == Fresh()
  {
    var args := [Value(ModuleObj(1)), Value(ModuleObj(0))];
    assert Unpack(args) == args;
    assert FirstNonModule(args, 2) == None;
    assert FirstNonModule(args, 0) == None;
    assert RootIds(args) == [1, 0] by {
      assert args[1..] == [Value(ModuleObj(0))];
      assert args[1..][1..] == [];
    }
    NestedClosed();
    NestedSorted();
    ScanNestedSorted();
    ScanNestedAsGiven();
  }
}
