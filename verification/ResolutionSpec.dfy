/** What resolving a test promises, read off the registry itself. */
module ResolutionSpec {
  import opened Wire
  import opened Discovery
  import opened Registry
  import opened Resolver

  /** The view of one test: its registry, module and own name. */
  datatype View = View(registry: FixtureRegistry, modulePath: Path, testName: string)
  {
    function Find(name: string): Option<Located> { registry.Lookup(name, modulePath, testName) }

    /** Resolving `name` means resolving `dep` first; names pytest provides need nothing. */
    ghost predicate Needs(name: string, dep: string) {
      name !in PYTEST_BUILTINS && Find(name).Some? && dep in Find(name).value.def.dependencies
    }

    /** Neither provided by pytest nor defined. */
    predicate Undefined(name: string) { name !in PYTEST_BUILTINS && Find(name).None? }

    ghost predicate IsChain(c: seq<string>) {
      c != [] && forall i :: 0 <= i < |c| - 1 ==> Needs(c[i], c[i + 1])
    }

    ghost function Scope(): Scope { ScopeOf(registry, modulePath, testName) }
  }

  /** The argument is not filled by a decorator. */
  predicate IsStart(test: TestCase, name: string) {
    name in test.dependencies && name !in test.parametrizedArgs
  }

  /** A chain of needs from an argument of the test. */
  ghost predicate ChainFrom(v: View, test: TestCase, c: seq<string>) {
    v.IsChain(c) && IsStart(test, c[0])
  }

  ghost function Starts(test: TestCase): seq<string> { Without(test.dependencies, test.parametrizedArgs) }

  // ------------------------------------------------------------- the two graphs

  lemma SameEdges(v: View, name: string, dep: string)
    ensures v.Needs(name, dep) <==> dep in v.Scope().Deps(name)
    ensures v.Undefined(name) <==> v.Scope().Missing(name)
  {
    ScopeSees(v.registry, v.modulePath, v.testName);
  }

  lemma SamePaths(v: View, c: seq<string>)
    ensures v.IsChain(c) <==> v.Scope().IsPath(c)
  {
    if c != [] {
      forall i | 0 <= i < |c| - 1
        ensures v.Needs(c[i], c[i + 1]) <==> c[i + 1] in v.Scope().Deps(c[i])
      {
        SameEdges(v, c[i], c[i + 1]);
      }
    }
  }

  /** A chain that repeats a name goes round a reachable cycle. */
  lemma RepeatIsCycle(sc: Scope, roots: seq<string>, c: seq<string>, i: nat, j: nat)
    requires sc.IsPath(c) && c[0] in roots && i < j < |c| && c[i] == c[j]
    ensures !sc.Acyclic(roots)
  {
    var cycle := c[i..j + 1];
    assert sc.IsCycle(cycle);
    assert sc.PathFromTo(roots, c[..i + 1], cycle[0]);
  }

  /** A reachable cycle gives a chain that repeats. */
  lemma CycleRepeats(sc: Scope, roots: seq<string>, cycle: seq<string>) returns (c: seq<string>)
    requires sc.IsCycle(cycle) && sc.Reachable(roots, cycle[0])
    ensures sc.IsPath(c) && c[0] in roots && !Distinct(c)
  {
    var p :| sc.PathFromTo(roots, p, cycle[0]);
    c := p + cycle[1..];
    forall i | 0 <= i < |c| - 1
      ensures c[i + 1] in sc.Deps(c[i])
    {
      if i >= |p| - 1 {
        var k := i - (|p| - 1);
        assert c[i] == cycle[k] && c[i + 1] == cycle[k + 1];
      }
    }
    assert c[|p| - 1] == c[|c| - 1];
  }

  // ----------------------------------------------------------------- main results

  /** Every chain of needs ends well: it repeats no name and meets nothing undefined. */
  ghost predicate AllChainsGood(v: View, test: TestCase) {
    forall c :: ChainFrom(v, test, c) ==> Distinct(c) && !v.Undefined(c[|c| - 1])
  }

  lemma CycleIsBad(v: View, test: TestCase, cycle: seq<string>)
    requires v.Scope().IsCycle(cycle) && v.Scope().Reachable(Starts(test), cycle[0])
    ensures !AllChainsGood(v, test)
  {
    var c := CycleRepeats(v.Scope(), Starts(test), cycle);
    SamePaths(v, c);
    assert ChainFrom(v, test, c);
  }

  lemma SolvableIff(v: View, test: TestCase)
    ensures Solvable(v.Scope(), Starts(test)) <==> AllChainsGood(v, test)
  {
    var sc, roots := v.Scope(), Starts(test);
    if Solvable(sc, roots) {
      forall c | ChainFrom(v, test, c)
        ensures Distinct(c) && !v.Undefined(c[|c| - 1])
      {
        SamePaths(v, c);
        SameEdges(v, c[|c| - 1], "");
        assert sc.PathFromTo(roots, c, c[|c| - 1]);
        forall i, j | 0 <= i < j < |c|
          ensures c[i] != c[j]
        {
          if c[i] == c[j] {
            RepeatIsCycle(sc, roots, c, i, j);
          }
        }
      }
    }
    if AllChainsGood(v, test) {
      forall n | sc.Reachable(roots, n)
        ensures !sc.Missing(n)
      {
        var p :| sc.PathFromTo(roots, p, n);
        SamePaths(v, p);
        SameEdges(v, n, "");
        assert ChainFrom(v, test, p);
      }
      forall cycle | sc.IsCycle(cycle)
        ensures !sc.Reachable(roots, cycle[0])
      {
        if sc.Reachable(roots, cycle[0]) {
          CycleIsBad(v, test, cycle);
        }
      }
    }
  }

  /** Resolution succeeds exactly if no chain of needs from an argument repeats or meets an undefined name. */
  lemma ResolvesIff(v: View, test: TestCase)
    requires v.testName == test.name
    ensures Resolve(v.registry, test, v.modulePath).Ok? <==> AllChainsGood(v, test)
  {
    SucceedsIff(v.Scope(), Starts(test));
    SolvableIff(v, test);
  }

  /** The list is complete: arguments and needs are provided by pytest or listed, needs before what needs them. */
  ghost predicate Closed(v: View, test: TestCase, fs: seq<ResolvedFixture>) {
    && (forall n :: IsStart(test, n) ==> n in PYTEST_BUILTINS || n in NamesOf(fs))
    && forall i, d :: 0 <= i < |fs| && v.Find(fs[i].name).Some? && d in v.Find(fs[i].name).value.def.dependencies ==>
         d in PYTEST_BUILTINS || d in NamesOf(fs[..i])
  }

  /** The list has nothing to spare: each name is an argument, or needed by a later one. */
  ghost predicate Needed(v: View, test: TestCase, fs: seq<ResolvedFixture>) {
    forall i :: 0 <= i < |fs| ==>
      IsStart(test, fs[i].name) || exists j :: i < j < |fs| && v.Needs(fs[j].name, fs[i].name)
  }

  /** Each entry is what its lookup finds. */
  ghost predicate Accurate(v: View, fs: seq<ResolvedFixture>) {
    && Distinct(NamesOf(fs))
    && forall i :: 0 <= i < |fs| ==>
         && fs[i].name !in PYTEST_BUILTINS && v.Find(fs[i].name).Some?
         && fs[i].sourceFile == v.Find(fs[i].name).value.source && fs[i].scope == v.Find(fs[i].name).value.def.scope
  }

  lemma Position(fs: seq<ResolvedFixture>, n: string, k: nat) returns (i: nat)
    requires k <= |fs| && n in NamesOf(fs[..k])
    ensures i < k && fs[i].name == n
  {
    var names := NamesOf(fs[..k]);
    i :| 0 <= i < |names| && names[i] == n;
  }

  /** A listed name that is no argument is needed by a name listed later. */
  lemma NeededLater(v: View, test: TestCase, fs: seq<ResolvedFixture>, i: nat) returns (j: nat)
    requires i < |fs| && !IsStart(test, fs[i].name) && v.Scope().Reachable(Starts(test), fs[i].name)
    requires Distinct(NamesOf(fs)) && Closed(v, test, fs)
    requires forall n :: v.Scope().Reachable(Starts(test), n) && n !in PYTEST_BUILTINS ==> n in NamesOf(fs)
    requires fs[i].name !in PYTEST_BUILTINS
    ensures i < j < |fs| && v.Needs(fs[j].name, fs[i].name)
  {
    var sc, roots, n := v.Scope(), Starts(test), fs[i].name;
    var p :| sc.PathFromTo(roots, p, n);
    var k := |p| - 2;
    assert p[k + 1] in sc.Deps(p[k]);
    SameEdges(v, p[k], n);
    assert sc.PathFromTo(roots, p[..k + 1], p[k]);
    assert fs[..|fs|] == fs;
    j := Position(fs, p[k], |fs|);
    var i' := Position(fs, n, j);
    assert NamesOf(fs)[i'] == NamesOf(fs)[i];
  }

  /** On success the list is complete, in order, accurate and without anything spare. */
  lemma ResolvedList(v: View, test: TestCase)
    requires v.testName == test.name && Resolve(v.registry, test, v.modulePath).Ok?
    ensures var fs := Resolve(v.registry, test, v.modulePath).value.fixtures;
            Closed(v, test, fs) && Needed(v, test, fs) && Accurate(v, fs)
  {
    var sc, roots := v.Scope(), Starts(test);
    var fs := Resolve(v.registry, test, v.modulePath).value.fixtures;
    SuccessList(sc, roots);
    ScopeSees(v.registry, v.modulePath, v.testName);
    ListClosed(v, test, fs);
    forall i | 0 <= i < |fs| && !IsStart(test, fs[i].name)
      ensures exists j :: i < j < |fs| && v.Needs(fs[j].name, fs[i].name)
    {
      assert NamesOf(fs)[i] in NamesOf(fs);
      var j := NeededLater(v, test, fs, i);
    }
  }

  lemma ListClosed(v: View, test: TestCase, fs: seq<ResolvedFixture>)
    requires forall n :: v.Scope().Reachable(Starts(test), n) && n !in PYTEST_BUILTINS ==> n in NamesOf(fs)
    requires forall i, d :: 0 <= i < |fs| && d in v.Scope().Deps(fs[i].name) && d !in PYTEST_BUILTINS ==> d in NamesOf(fs[..i])
    requires forall i :: 0 <= i < |fs| ==> fs[i].name !in PYTEST_BUILTINS
    ensures Closed(v, test, fs)
  {
    forall n | IsStart(test, n)
      ensures n in PYTEST_BUILTINS || n in NamesOf(fs)
    {
      ReachableSelf(v.Scope(), Starts(test), n);
    }
    forall i, d | 0 <= i < |fs| && v.Find(fs[i].name).Some? && d in v.Find(fs[i].name).value.def.dependencies
      ensures d in PYTEST_BUILTINS || d in NamesOf(fs[..i])
    {
      SameEdges(v, fs[i].name, d);
    }
  }

  /** An error is a chain of needs from an argument: to an undefined name, or back to a name on it. */
  lemma ErrorsAreChains(v: View, test: TestCase)
    requires v.testName == test.name && Resolve(v.registry, test, v.modulePath).Err?
    ensures var e := Resolve(v.registry, test, v.modulePath).error;
            && e.test == test.name
            && match e
               case MissingFixture(_, name) =>
                 v.Undefined(name) && exists c :: ChainFrom(v, test, c) && c[|c| - 1] == name
               case CyclicDependency(_, c) =>
                 && ChainFrom(v, test, c) && Distinct(c[..|c| - 1]) && c[|c| - 1] in c[..|c| - 1]
  {
    var sc, roots := v.Scope(), Starts(test);
    ErrorsGenuine(sc, roots);
    match Resolve(v.registry, test, v.modulePath).error
    case MissingFixture(_, name) =>
      var p :| sc.PathFromTo(roots, p, name);
      SamePaths(v, p);
      SameEdges(v, name, "");
      assert ChainFrom(v, test, p);
    case CyclicDependency(_, c) =>
      SamePaths(v, c);
  }

  /** A fixture of the user's own is never listed under the name of one of pytest's, such as `cache`. */
  lemma BuiltinHidesOwn(v: View, test: TestCase)
    requires v.testName == test.name && Resolve(v.registry, test, v.modulePath).Ok?
    ensures var names := NamesOf(Resolve(v.registry, test, v.modulePath).value.fixtures);
            "cache" !in names && "tmp_path" !in names && "monkeypatch" !in names && "request" !in names
  {
    ResolvedList(v, test);
  }
}
