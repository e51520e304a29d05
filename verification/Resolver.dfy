/** Fixture resolution: a depth-first search with a visited set and a recursion stack. */
module Resolver {
  import opened Wire
  import opened Discovery
  import opened Registry

  datatype ResolvedFixture = ResolvedFixture(name: string, sourceFile: Path, scope: FixtureScope)

  datatype RunnableTest = RunnableTest(
    filePath: Path, testName: string, isAsync: bool, fixtures: seq<ResolvedFixture>)

  datatype ResolutionError =
    | MissingFixture(test: string, fixture: string)
    | CyclicDependency(test: string, cycle: seq<string>)

  datatype Result<+T> = Ok(value: T) | Err(error: ResolutionError)

  const PYTEST_BUILTINS: set<string> := {
    "monkeypatch", "tmp_path", "tmp_path_factory", "tmpdir", "tmpdir_factory",
    "capsys", "capfd", "capsysbinary", "capfdbinary", "caplog", "request", "cache",
    "record_property", "record_testsuite_property", "record_xml_attribute",
    "doctest_namespace", "recwarn", "pytestconfig"}

  // ---------------------------------------------------------- the name graph

  /**
   What one test sees: the fixtures its lookups find, by name, and the names
   pytest provides. Names are always looked up with the module and the class of
   the test itself, so the graph is fixed for the whole resolution.
   */
  datatype Scope = Scope(defs: map<string, Located>, builtins: set<string>, testName: string)
  {
    /** A name that gets listed: not provided by pytest, and defined. */
    predicate Listed(name: string) { name !in builtins && name in defs }

    predicate Missing(name: string) { name !in builtins && name !in defs }

    function Deps(name: string): seq<string> {
      if Listed(name) then defs[name].def.dependencies else []
    }

    function Entry(name: string): ResolvedFixture
      requires Listed(name)
    {
      ResolvedFixture(name, defs[name].source, defs[name].def.scope)
    }

    ghost predicate IsPath(p: seq<string>) {
      p != [] && forall i :: 0 <= i < |p| - 1 ==> p[i + 1] in Deps(p[i])
    }

    ghost predicate PathFromTo(roots: seq<string>, p: seq<string>, n: string) {
      IsPath(p) && p[0] in roots && p[|p| - 1] == n
    }

    ghost predicate Reachable(roots: seq<string>, n: string) {
      exists p :: PathFromTo(roots, p, n)
    }

    ghost predicate IsCycle(c: seq<string>) {
      IsPath(c) && |c| >= 2 && c[0] == c[|c| - 1]
    }

    ghost predicate Acyclic(roots: seq<string>) {
      forall c :: IsCycle(c) ==> !Reachable(roots, c[0])
    }

    /** Nothing reachable is undefined. */
    ghost predicate FullyDefined(roots: seq<string>) {
      forall n :: Reachable(roots, n) ==> !Missing(n)
    }
  }

  ghost function ScopeOf(registry: FixtureRegistry, modulePath: Path, testName: string): Scope {
    var visible := map n | n in registry.Names() && registry.Lookup(n, modulePath, testName).Some?
                     :: registry.Lookup(n, modulePath, testName).value;
    Scope(visible, PYTEST_BUILTINS, testName)
  }

  /** The scope holds what the registry finds for this test. */
  ghost predicate Sees(sc: Scope, registry: FixtureRegistry, modulePath: Path, testName: string) {
    && sc.builtins == PYTEST_BUILTINS && sc.testName == testName
    && forall name :: registry.Lookup(name, modulePath, testName) == Get(sc.defs, name)
  }

  lemma ScopeSees(registry: FixtureRegistry, modulePath: Path, testName: string)
    ensures Sees(ScopeOf(registry, modulePath, testName), registry, modulePath, testName)
  {}

  function NamesOf(fs: seq<ResolvedFixture>): (r: seq<string>)
    ensures |r| == |fs| && forall i :: 0 <= i < |fs| ==> r[i] == fs[i].name
  {
    seq(|fs|, i requires 0 <= i < |fs| => fs[i].name)
  }

  // ---------------------------------------------------------------- the search

  datatype Dfs = Dfs(resolved: seq<ResolvedFixture>, visited: set<string>, stack: seq<string>)

  ghost function Room(sc: Scope, stack: seq<string>): nat {
    |sc.defs.Keys - (set n | n in stack)|
  }

  lemma RoomShrinks(sc: Scope, stack: seq<string>, name: string)
    requires name in sc.defs && name !in stack
    ensures Room(sc, stack + [name]) < Room(sc, stack)
  {
    var a, b := sc.defs.Keys - (set n | n in stack), sc.defs.Keys - (set n | n in stack + [name]);
    assert b == a - {name};
  }

  ghost function Visit(sc: Scope, name: string, st: Dfs): (r: Result<Dfs>)
    ensures r.Ok? ==> r.value.stack == st.stack
    decreases Room(sc, st.stack), 0
  {
    if name in st.visited then Ok(st)
    else if name in st.stack then Err(CyclicDependency(sc.testName, st.stack + [name]))
    else if name in sc.builtins then Ok(st.(visited := st.visited + {name}))
    else if name !in sc.defs then Err(MissingFixture(sc.testName, name))
    else
      RoomShrinks(sc, st.stack, name);
      match VisitAll(sc, sc.Deps(name), st.(stack := st.stack + [name]))
      case Err(e) => Err(e)
      case Ok(st') => Ok(Dfs(st'.resolved + [sc.Entry(name)], st'.visited + {name}, st.stack))
  }

  ghost function VisitAll(sc: Scope, names: seq<string>, st: Dfs): (r: Result<Dfs>)
    ensures r.Ok? ==> r.value.stack == st.stack
    decreases Room(sc, st.stack), 1 + |names|
  {
    if names == [] then Ok(st)
    else match Visit(sc, names[0], st)
      case Err(e) => Err(e)
      case Ok(st') => VisitAll(sc, names[1..], st')
  }

  const START: Dfs := Dfs([], {}, [])

  /** How many fixtures are being resolved at once at most, the search failing or not. */
  ghost function Depth(sc: Scope, name: string, st: Dfs): (d: nat)
    ensures d >= |st.stack|
    decreases Room(sc, st.stack), 0
  {
    if name in st.visited || name in st.stack || !sc.Listed(name) then |st.stack|
    else
      RoomShrinks(sc, st.stack, name);
      DepthAll(sc, sc.Deps(name), st.(stack := st.stack + [name]))
  }

  ghost function DepthAll(sc: Scope, names: seq<string>, st: Dfs): (d: nat)
    ensures d >= |st.stack|
    decreases Room(sc, st.stack), 1 + |names|
  {
    if names == [] then |st.stack|
    else match Visit(sc, names[0], st)
      case Err(_) => Depth(sc, names[0], st)
      case Ok(st') => Max(Depth(sc, names[0], st), DepthAll(sc, names[1..], st'))
  }

  lemma ConsUnfolds(sc: Scope, name: string, names: seq<string>, st: Dfs)
    ensures var first := Visit(sc, name, st);
            && VisitAll(sc, [name] + names, st) == (if first.Err? then first else VisitAll(sc, names, first.value))
            && DepthAll(sc, [name] + names, st) ==
               if first.Err? then Depth(sc, name, st) else Max(Depth(sc, name, st), DepthAll(sc, names, first.value))
  {
    assert ([name] + names)[1..] == names;
  }

  // ------------------------------------------------- the search as the source runs it

  /** The outcome and the state a call leaves are those of the search. */
  ghost predicate Follows(r: Result<()>, state: Dfs, search: Result<Dfs>) {
    match search
    case Ok(st) => r.Ok? && state == st
    case Err(e) => r == Err(e)
  }

  /** The mutable arguments `resolved`, `visited` and `stack` of one test's resolution. */
  class Resolution {
    var resolved: seq<ResolvedFixture>
    var visited: set<string>
    var stack: seq<string>
    ghost var deepest: nat    // the most names the stack has held while searching

    ghost function State(): Dfs
      reads this
    {
      Dfs(resolved, visited, stack)
    }

    constructor ()
      ensures State() == START && deepest == 0
    {
      resolved, visited, stack, deepest := [], {}, [], 0;
    }

    method ResolveFixture(registry: FixtureRegistry, modulePath: Path, testName: string, name: string, ghost sc: Scope)
      returns (r: Result<()>)
      requires Sees(sc, registry, modulePath, testName) && |stack| <= deepest
      modifies this
      ensures Follows(r, State(), Visit(sc, name, old(State())))
      ensures deepest == Max(old(deepest), Depth(sc, name, old(State())))
      decreases Room(sc, stack), 0
    {
      if name in visited {
        return Ok(());
      }
      if name in stack {
        stack := stack + [name];
        return Err(CyclicDependency(testName, stack));
      }
      if name in PYTEST_BUILTINS {
        visited := visited + {name};
        return Ok(());
      }
      var found := registry.Lookup(name, modulePath, testName);
      if found.None? {
        return Err(MissingFixture(testName, name));
      }
      RoomShrinks(sc, stack, name);
      stack := stack + [name];
      deepest := Max(deepest, |stack|);
      r := ResolveDependencies(registry, modulePath, testName, found.value.def.dependencies, sc);
      if r.Err? {
        return;
      }
      stack := stack[..|stack| - 1];
      visited := visited + {name};
      resolved := resolved + [ResolvedFixture(name, found.value.source, found.value.def.scope)];
      r := Ok(());
    }

    /** The loop over the dependencies of a fixture; the first error ends it. */
    method ResolveDependencies(registry: FixtureRegistry, modulePath: Path, testName: string, deps: seq<string>, ghost sc: Scope)
      returns (r: Result<()>)
      requires Sees(sc, registry, modulePath, testName) && |stack| <= deepest
      modifies this
      ensures Follows(r, State(), VisitAll(sc, deps, old(State())))
      ensures deepest == Max(old(deepest), DepthAll(sc, deps, old(State())))
      decreases Room(sc, stack), 1
    {
      ghost var all, most := VisitAll(sc, deps, State()), Max(deepest, DepthAll(sc, deps, State()));
      assert deps[0..] == deps && deps[|deps|..] == [];
      for i := 0 to |deps|
        invariant stack == old(stack) && |stack| <= deepest
        invariant all == VisitAll(sc, deps[i..], State())
        invariant most == Max(deepest, DepthAll(sc, deps[i..], State()))
      {
        assert deps[i..] == [deps[i]] + deps[i + 1..];
        ConsUnfolds(sc, deps[i], deps[i + 1..], State());
        r := ResolveFixture(registry, modulePath, testName, deps[i], sc);
        if r.Err? {
          return;
        }
      }
      r := Ok(());
    }
  }

  /** The loop over the arguments of a test; injected ones are not fixtures. */
  method ResolveArguments(registry: FixtureRegistry, test: TestCase, modulePath: Path, ghost sc: Scope)
    returns (r: Result<seq<ResolvedFixture>>, ghost deepest: nat)
    requires Sees(sc, registry, modulePath, test.name)
    ensures match VisitAll(sc, Without(test.dependencies, test.parametrizedArgs), START)
            case Ok(st) => r == Ok(st.resolved)
            case Err(e) => r == Err(e)
    ensures deepest == DepthAll(sc, Without(test.dependencies, test.parametrizedArgs), START)
  {
    var search := new Resolution();
    var deps, injected := test.dependencies, test.parametrizedArgs;
    ghost var left := Without(deps, injected);
    ghost var all, most := VisitAll(sc, left, START), DepthAll(sc, left, START);
    assert deps[0..] == deps && deps[|deps|..] == [];
    for i := 0 to |deps|
      invariant search.stack == [] && left == Without(deps[i..], injected)
      invariant all == VisitAll(sc, left, search.State())
      invariant most == Max(search.deepest, DepthAll(sc, left, search.State()))
    {
      WithoutFirst(deps, i, injected);
      left := Without(deps[i + 1..], injected);
      if deps[i] in injected {
        continue;
      }
      ConsUnfolds(sc, deps[i], left, search.State());
      var one := search.ResolveFixture(registry, modulePath, test.name, deps[i], sc);
      if one.Err? {
        return Err(one.error), search.deepest;
      }
    }
    r, deepest := Ok(search.resolved), search.deepest;
  }

  lemma WithoutFirst(names: seq<string>, i: nat, removed: seq<string>)
    requires i < |names|
    ensures var rest := Without(names[i + 1..], removed);
            Without(names[i..], removed) == if names[i] in removed then rest else [names[i]] + rest
  {
    assert names[i..][1..] == names[i + 1..];
  }

  /** Resolve one test. The stack never holds more names than the test sees fixtures. */
  method ResolveTest(registry: FixtureRegistry, test: TestCase, modulePath: Path)
    returns (r: Result<RunnableTest>, ghost deepest: nat)
    ensures r == Resolve(registry, test, modulePath)
    ensures deepest <= Visible(registry, modulePath, test.name)
  {
    ghost var sc := ScopeOf(registry, modulePath, test.name);
    ScopeSees(registry, modulePath, test.name);
    DepthBounded(sc, Without(test.dependencies, test.parametrizedArgs));
    var found;
    found, deepest := ResolveArguments(registry, test, modulePath, sc);
    match found {
      case Ok(fixtures) => r := Ok(RunnableTest(modulePath, test.name, test.isAsync, fixtures));
      case Err(e) => r := Err(e);
    }
  }

  /** How many fixture names a test can see. */
  ghost function Visible(registry: FixtureRegistry, modulePath: Path, testName: string): nat {
    |ScopeOf(registry, modulePath, testName).defs.Keys|
  }

  ghost function Resolve(registry: FixtureRegistry, test: TestCase, modulePath: Path): Result<RunnableTest> {
    match VisitAll(ScopeOf(registry, modulePath, test.name), Without(test.dependencies, test.parametrizedArgs), START)
    case Err(e) => Err(e)
    case Ok(st) => Ok(RunnableTest(modulePath, test.name, test.isAsync, st.resolved))
  }

  // ------------------------------------------------------- what the search keeps

  ghost predicate SearchInv(sc: Scope, st: Dfs) {
    && Distinct(NamesOf(st.resolved))
    && (forall i :: 0 <= i < |st.resolved| ==>
          && sc.Listed(st.resolved[i].name)
          && st.resolved[i] == sc.Entry(st.resolved[i].name)
          && st.resolved[i].name in st.visited)
    && (forall n :: n in st.visited ==> n in sc.builtins || n in NamesOf(st.resolved))
    && DepsFirst(sc, st)
  }

  /** Every dependency of a listed fixture is builtin or listed before it. */
  ghost predicate DepsFirst(sc: Scope, st: Dfs) {
    forall i, d :: 0 <= i < |st.resolved| && d in sc.Deps(st.resolved[i].name) ==>
      d in st.visited && (d in sc.builtins || d in NamesOf(st.resolved[..i]))
  }

  /** The stack is a path of distinct listed names, none of them finished. */
  ghost predicate StackInv(sc: Scope, st: Dfs) {
    && Distinct(st.stack)
    && (st.stack != [] ==> sc.IsPath(st.stack))
    && forall n :: n in st.stack ==> sc.Listed(n) && n !in st.visited
  }

  /** One more name may be searched below the stack. */
  ghost predicate Extends(sc: Scope, stack: seq<string>, name: string) {
    stack != [] ==> name in sc.Deps(stack[|stack| - 1])
  }

  ghost predicate Grows(st: Dfs, st': Dfs) {
    && st.resolved <= st'.resolved
    && st.visited <= st'.visited
  }

  lemma PushKeeps(sc: Scope, st: Dfs, name: string)
    requires SearchInv(sc, st) && StackInv(sc, st) && Extends(sc, st.stack, name)
    requires name !in st.visited && name !in st.stack && sc.Listed(name)
    ensures var st' := st.(stack := st.stack + [name]);
            SearchInv(sc, st') && StackInv(sc, st') && forall d :: d in sc.Deps(name) ==> Extends(sc, st'.stack, d)
  {}

  lemma FinishKeeps(sc: Scope, st: Dfs, name: string)
    requires SearchInv(sc, st) && sc.Listed(name) && name !in st.visited
    requires forall d :: d in sc.Deps(name) ==> d in st.visited
    ensures SearchInv(sc, st.(resolved := st.resolved + [sc.Entry(name)], visited := st.visited + {name}))
  {
    var st' := st.(resolved := st.resolved + [sc.Entry(name)], visited := st.visited + {name});
    var k := |st.resolved|;
    assert NamesOf(st'.resolved) == NamesOf(st.resolved) + [name];
    forall i, d | 0 <= i <= k && d in sc.Deps(st'.resolved[i].name)
      ensures d in st'.visited && (d in sc.builtins || d in NamesOf(st'.resolved[..i]))
    {
      if i < k {
        assert st'.resolved[..i] == st.resolved[..i];
      }
    }
  }

  lemma BuiltinKeeps(sc: Scope, st: Dfs, name: string)
    requires SearchInv(sc, st) && StackInv(sc, st) && name in sc.builtins
    ensures var st' := st.(visited := st.visited + {name});
            SearchInv(sc, st') && StackInv(sc, st') && OnlyReachable(sc, [name], st, st')
  {
    ReachableSelf(sc, [name], name);
  }

  /** Popping the finished name restores the caller's stack. */
  lemma PopKeeps(sc: Scope, st: Dfs, name: string, mid: Dfs)
    requires StackInv(sc, st) && sc.Listed(name)
    requires SearchInv(sc, mid) && StackInv(sc, mid) && mid.stack == st.stack + [name]
    requires forall d :: d in sc.Deps(name) ==> d in mid.visited
    ensures var st' := Dfs(mid.resolved + [sc.Entry(name)], mid.visited + {name}, st.stack);
            SearchInv(sc, st') && StackInv(sc, st') && Grows(mid, st')
  {
    assert name in mid.stack;
    FinishKeeps(sc, mid, name);
    var k := |st.stack|;
    assert mid.stack[k] == name;
    forall n | n in st.stack
      ensures n != name && n in mid.stack
    {
      var i :| 0 <= i < k && st.stack[i] == n;
      assert mid.stack[i] == n;
    }
  }

  /** A successful visit keeps the invariants and finishes exactly what it should. */
  lemma {:induction false} VisitOk(sc: Scope, name: string, st: Dfs)
    requires SearchInv(sc, st) && StackInv(sc, st) && Extends(sc, st.stack, name)
    requires Visit(sc, name, st).Ok?
    ensures var st' := Visit(sc, name, st).value;
            && SearchInv(sc, st') && StackInv(sc, st') && Grows(st, st') && name in st'.visited
            && OnlyReachable(sc, [name], st, st')
    decreases Room(sc, st.stack), 0
  {
    if name in st.visited {
    } else if name in sc.builtins {
      BuiltinKeeps(sc, st, name);
    } else {
      RoomShrinks(sc, st.stack, name);
      var below := st.(stack := st.stack + [name]);
      PushKeeps(sc, st, name);
      VisitAllOk(sc, sc.Deps(name), below);
      var mid := VisitAll(sc, sc.Deps(name), below).value;
      PopKeeps(sc, st, name, mid);
      ReachableBelow(sc, name, st, mid);
    }
  }

  /** Everything newly finished is reachable from `names`. */
  ghost predicate OnlyReachable(sc: Scope, names: seq<string>, st: Dfs, st': Dfs) {
    forall n :: n in st'.visited && n !in st.visited ==> sc.Reachable(names, n)
  }

  lemma ReachableBelow(sc: Scope, name: string, st: Dfs, mid: Dfs)
    requires OnlyReachable(sc, sc.Deps(name), st, mid)
    ensures OnlyReachable(sc, [name], st, mid.(visited := mid.visited + {name}))
  {
    forall n | n in mid.visited + {name} && n !in st.visited
      ensures sc.Reachable([name], n)
    {
      if n == name {
        ReachableSelf(sc, [name], name);
      } else {
        ReachableStep(sc, name, n);
      }
    }
  }

  lemma {:induction false} VisitAllOk(sc: Scope, names: seq<string>, st: Dfs)
    requires SearchInv(sc, st) && StackInv(sc, st)
    requires forall n :: n in names ==> Extends(sc, st.stack, n)
    requires VisitAll(sc, names, st).Ok?
    ensures var st' := VisitAll(sc, names, st).value;
            && SearchInv(sc, st') && StackInv(sc, st') && Grows(st, st') && (forall n :: n in names ==> n in st'.visited)
            && OnlyReachable(sc, names, st, st')
    decreases Room(sc, st.stack), 1 + |names|
  {
    if names != [] {
      VisitOk(sc, names[0], st);
      var mid := Visit(sc, names[0], st).value;
      VisitAllOk(sc, names[1..], mid);
      var st' := VisitAll(sc, names, st).value;
      forall n | n in st'.visited && n !in st.visited
        ensures sc.Reachable(names, n)
      {
        if n in mid.visited {
          ReachableWiden(sc, [names[0]], names, n);
        } else {
          ReachableWiden(sc, names[1..], names, n);
        }
      }
    }
  }

  // -------------------------------------------------------------- reachability

  lemma ReachableSelf(sc: Scope, roots: seq<string>, n: string)
    requires n in roots
    ensures sc.Reachable(roots, n)
  {
    assert sc.PathFromTo(roots, [n], n);
  }

  lemma ReachableStep(sc: Scope, name: string, n: string)
    requires sc.Reachable(sc.Deps(name), n)
    ensures sc.Reachable([name], n)
  {
    var p :| sc.PathFromTo(sc.Deps(name), p, n);
    var q := [name] + p;
    forall i | 0 <= i < |q| - 1
      ensures q[i + 1] in sc.Deps(q[i])
    {}
    assert sc.PathFromTo([name], q, n);
  }

  lemma ReachableWiden(sc: Scope, few: seq<string>, many: seq<string>, n: string)
    requires sc.Reachable(few, n)
    requires forall r :: r in few ==> r in many
    ensures sc.Reachable(many, n)
  {
    var p :| sc.PathFromTo(few, p, n);
    assert sc.PathFromTo(many, p, n);
  }

  lemma PathSuffix(sc: Scope, p: seq<string>, k: nat)
    requires sc.IsPath(p) && k < |p|
    ensures sc.IsPath(p[k..])
  {}

  /** Everything on a path from a finished name is finished. */
  lemma {:induction false} PathVisited(sc: Scope, st: Dfs, p: seq<string>)
    requires SearchInv(sc, st) && sc.IsPath(p) && p[0] in st.visited
    ensures forall n :: n in p ==> n in st.visited
    decreases |p|
  {
    if |p| > 1 {
      Closed(sc, st, p[0], p[1]);
      PathSuffix(sc, p, 1);
      PathVisited(sc, st, p[1..]);
    }
  }

  lemma Closed(sc: Scope, st: Dfs, n: string, d: string)
    requires SearchInv(sc, st) && n in st.visited && d in sc.Deps(n)
    ensures d in st.visited
  {}

  function IndexIn(s: seq<string>, n: string): (i: nat)
    requires n in s
    ensures i < |s| && s[i] == n
  {
    if s[0] == n then 0 else 1 + IndexIn(s[1..], n)
  }

  /** Along a path inside the finished names the list position only falls. */
  lemma {:induction false} PathDescends(sc: Scope, st: Dfs, p: seq<string>)
    requires SearchInv(sc, st) && sc.IsPath(p)
    requires forall n :: n in p ==> n in NamesOf(st.resolved)
    ensures var names := NamesOf(st.resolved);
            var i, j := IndexIn(names, p[0]), IndexIn(names, p[|p| - 1]);
            if |p| == 1 then i == j else j < i
    decreases |p|
  {
    if |p| > 1 {
      var names := NamesOf(st.resolved);
      var i := IndexIn(names, p[0]);
      var before := NamesOf(st.resolved[..i]);
      var k := IndexIn(names, p[1]);
      assert sc.Listed(p[1]);
      var m := IndexIn(before, p[1]);
      assert names[m] == names[k] && m < i;
      PathSuffix(sc, p, 1);
      PathDescends(sc, st, p[1..]);
    }
  }

  /** No cycle passes through a finished name. */
  lemma FinishedAcyclic(sc: Scope, st: Dfs, c: seq<string>)
    requires SearchInv(sc, st) && sc.IsCycle(c)
    ensures c[0] !in st.visited
  {
    if c[0] in st.visited {
      PathVisited(sc, st, c);
      forall n | n in c
        ensures n in NamesOf(st.resolved)
      {
        var i := IndexIn(c, n);
        var j := if i < |c| - 1 then i else 0;
        assert c[j + 1] in sc.Deps(c[j]) && c[j] == n;
      }
      PathDescends(sc, st, c);
    }
  }

  // --------------------------------------------------------------------- errors

  /** What a failing search may report. */
  ghost predicate Genuine(sc: Scope, stack: seq<string>, names: seq<string>, e: ResolutionError) {
    && e.test == sc.testName
    && (e.MissingFixture? ==> sc.Missing(e.fixture) && sc.Reachable(names, e.fixture))
    && (e.CyclicDependency? ==> FirstRepeat(sc, e.cycle) && stack <= e.cycle && (stack == [] ==> e.cycle[0] in names))
  }

  /** A path of dependency edges whose last name, and only that, repeats an earlier one. */
  ghost predicate FirstRepeat(sc: Scope, cycle: seq<string>) {
    sc.IsPath(cycle) && Distinct(cycle[..|cycle| - 1]) && cycle[|cycle| - 1] in cycle[..|cycle| - 1]
  }

  lemma StackRepeats(sc: Scope, st: Dfs, name: string)
    requires StackInv(sc, st) && Extends(sc, st.stack, name) && name in st.stack
    ensures Genuine(sc, st.stack, [name], CyclicDependency(sc.testName, st.stack + [name]))
  {}

  /** An error below `name` is an error of `name`. */
  lemma GenuineBelow(sc: Scope, stack: seq<string>, name: string, e: ResolutionError)
    requires Genuine(sc, stack + [name], sc.Deps(name), e)
    ensures Genuine(sc, stack, [name], e)
  {
    if e.MissingFixture? {
      ReachableStep(sc, name, e.fixture);
    }
  }

  lemma {:induction false} VisitErr(sc: Scope, name: string, st: Dfs)
    requires SearchInv(sc, st) && StackInv(sc, st) && Extends(sc, st.stack, name)
    requires Visit(sc, name, st).Err?
    ensures Genuine(sc, st.stack, [name], Visit(sc, name, st).error)
    decreases Room(sc, st.stack), 0
  {
    if name in st.stack {
      StackRepeats(sc, st, name);
    } else if name !in sc.defs {
      ReachableSelf(sc, [name], name);
    } else {
      RoomShrinks(sc, st.stack, name);
      PushKeeps(sc, st, name);
      var below := st.(stack := st.stack + [name]);
      VisitAllErr(sc, sc.Deps(name), below);
      GenuineBelow(sc, st.stack, name, Visit(sc, name, st).error);
    }
  }

  lemma {:induction false} VisitAllErr(sc: Scope, names: seq<string>, st: Dfs)
    requires SearchInv(sc, st) && StackInv(sc, st)
    requires forall n :: n in names ==> Extends(sc, st.stack, n)
    requires VisitAll(sc, names, st).Err?
    ensures Genuine(sc, st.stack, names, VisitAll(sc, names, st).error)
    decreases Room(sc, st.stack), 1 + |names|
  {
    assert names[0] in names;
    match Visit(sc, names[0], st)
    case Err(e) =>
      VisitErr(sc, names[0], st);
      if e.MissingFixture? {
        ReachableWiden(sc, [names[0]], names, e.fixture);
      }
    case Ok(mid) =>
      VisitOk(sc, names[0], st);
      VisitAllErr(sc, names[1..], mid);
      var e := VisitAll(sc, names, st).error;
      if e.MissingFixture? {
        ReachableWiden(sc, names[1..], names, e.fixture);
      }
  }

  /** A reported cycle really is one, and it is reachable. */
  lemma CycleWitness(sc: Scope, names: seq<string>, cycle: seq<string>)
    requires FirstRepeat(sc, cycle) && cycle[0] in names
    ensures !sc.Acyclic(names)
  {
    var i := IndexIn(cycle[..|cycle| - 1], cycle[|cycle| - 1]);
    var c := cycle[i..];
    PathSuffix(sc, cycle, i);
    assert sc.IsCycle(c);
    assert sc.PathFromTo(names, cycle[..i + 1], c[0]);
  }

  // ----------------------------------------------------------------- main results

  ghost predicate Solvable(sc: Scope, roots: seq<string>) {
    sc.FullyDefined(roots) && sc.Acyclic(roots)
  }

  lemma StartInv(sc: Scope)
    ensures SearchInv(sc, START) && StackInv(sc, START)
  {}

  /** Resolution succeeds exactly on fully defined acyclic graphs. */
  lemma SucceedsIff(sc: Scope, roots: seq<string>)
    ensures VisitAll(sc, roots, START).Ok? <==> Solvable(sc, roots)
  {
    StartInv(sc);
    match VisitAll(sc, roots, START)
    case Ok(st) =>
      VisitAllOk(sc, roots, START);
      forall n | sc.Reachable(roots, n)
        ensures n in st.visited && !sc.Missing(n)
      {
        var p :| sc.PathFromTo(roots, p, n);
        PathVisited(sc, st, p);
      }
      forall c | sc.IsCycle(c)
        ensures !sc.Reachable(roots, c[0])
      {
        FinishedAcyclic(sc, st, c);
      }
    case Err(e) =>
      VisitAllErr(sc, roots, START);
      if e.CyclicDependency? {
        CycleWitness(sc, roots, e.cycle);
      }
  }

  /** On success the list is the reachable listed names, once each, dependencies first. */
  lemma SuccessList(sc: Scope, roots: seq<string>)
    requires VisitAll(sc, roots, START).Ok?
    ensures var fs := VisitAll(sc, roots, START).value.resolved;
            && Distinct(NamesOf(fs))
            && (forall n :: n in NamesOf(fs) <==> sc.Reachable(roots, n) && n !in sc.builtins)
            && (forall i :: 0 <= i < |fs| ==> sc.Listed(fs[i].name) && fs[i] == sc.Entry(fs[i].name))
            && (forall i, d :: 0 <= i < |fs| && d in sc.Deps(fs[i].name) && d !in sc.builtins ==> d in NamesOf(fs[..i]))
  {
    StartInv(sc);
    VisitAllOk(sc, roots, START);
    var st := VisitAll(sc, roots, START).value;
    forall n
      ensures n in NamesOf(st.resolved) <==> sc.Reachable(roots, n) && n !in sc.builtins
    {
      if n in NamesOf(st.resolved) {
        assert n in st.visited;
      }
      if sc.Reachable(roots, n) && n !in sc.builtins {
        var p :| sc.PathFromTo(roots, p, n);
        PathVisited(sc, st, p);
        assert n in p;
      }
    }
  }

  /** Errors are genuine: a reachable undefined name, or a path that first repeats at its end. */
  lemma ErrorsGenuine(sc: Scope, roots: seq<string>)
    requires VisitAll(sc, roots, START).Err?
    ensures var e := VisitAll(sc, roots, START).error;
            && e.test == sc.testName
            && (e.MissingFixture? ==> sc.Missing(e.fixture) && sc.Reachable(roots, e.fixture))
            && (e.CyclicDependency? ==> FirstRepeat(sc, e.cycle) && e.cycle[0] in roots)
  {
    StartInv(sc);
    VisitAllErr(sc, roots, START);
  }

  lemma {:induction false} VisitDepth(sc: Scope, name: string, st: Dfs)
    requires SearchInv(sc, st) && StackInv(sc, st) && Extends(sc, st.stack, name)
    ensures Depth(sc, name, st) <= |sc.defs.Keys|
    decreases Room(sc, st.stack), 0
  {
    StackSize(sc, st);
    if name !in st.visited && name !in st.stack && sc.Listed(name) {
      RoomShrinks(sc, st.stack, name);
      PushKeeps(sc, st, name);
      VisitAllDepth(sc, sc.Deps(name), st.(stack := st.stack + [name]));
    }
  }

  lemma {:induction false} VisitAllDepth(sc: Scope, names: seq<string>, st: Dfs)
    requires SearchInv(sc, st) && StackInv(sc, st)
    requires forall n :: n in names ==> Extends(sc, st.stack, n)
    ensures DepthAll(sc, names, st) <= |sc.defs.Keys|
    decreases Room(sc, st.stack), 1 + |names|
  {
    StackSize(sc, st);
    if names != [] {
      VisitDepth(sc, names[0], st);
      if Visit(sc, names[0], st).Ok? {
        VisitOk(sc, names[0], st);
        VisitAllDepth(sc, names[1..], Visit(sc, names[0], st).value);
      }
    }
  }

  /**
   Whatever the graph, cyclic ones included, resolution never has more fixtures
   open than there are visible ones; a reported path has at most one name more.
   */
  lemma DepthBounded(sc: Scope, roots: seq<string>)
    ensures DepthAll(sc, roots, START) <= |sc.defs.Keys|
    ensures var r := VisitAll(sc, roots, START);
            r.Err? && r.error.CyclicDependency? ==> |r.error.cycle| <= |sc.defs.Keys| + 1
  {
    StartInv(sc);
    VisitAllDepth(sc, roots, START);
    var r := VisitAll(sc, roots, START);
    if r.Err? && r.error.CyclicDependency? {
      ErrorsGenuine(sc, roots);
      CycleSize(sc, r.error.cycle);
    }
  }

  lemma CycleSize(sc: Scope, cycle: seq<string>)
    requires FirstRepeat(sc, cycle)
    ensures |cycle| <= |sc.defs.Keys| + 1
  {
    var open := cycle[..|cycle| - 1];
    forall i | 0 <= i < |open|
      ensures open[i] in sc.defs
    {
      assert cycle[i + 1] in sc.Deps(cycle[i]);
    }
    StackSize(sc, Dfs([], {}, open));
  }

  lemma StackSize(sc: Scope, st: Dfs)
    requires Distinct(st.stack) && forall n :: n in st.stack ==> n in sc.defs
    ensures |st.stack| <= |sc.defs.Keys|
  {
    DistinctSize(st.stack);
    SubsetSize((set n | n in st.stack), sc.defs.Keys);
  }

  lemma {:induction false} DistinctSize(s: seq<string>)
    requires Distinct(s)
    ensures |(set n | n in s)| == |s|
  {
    if s != [] {
      var k := |s| - 1;
      DistinctSize(s[..k]);
      assert (set n | n in s) == (set n | n in s[..k]) + {s[k]};
    }
  }

  lemma {:induction false} SubsetSize(a: set<string>, b: set<string>)
    requires a <= b
    ensures |a| <= |b|
  {
    if a != {} {
      var x :| x in a;
      SubsetSize(a - {x}, b - {x});
    }
  }
}
