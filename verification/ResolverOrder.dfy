/** The memoised search against the naive expansion it abbreviates, and whole-suite resolution. */
module ResolverOrder {
  import opened Discovery
  import opened Registry
  import opened Resolver

  // -------------------------------------------------------- naive expansion

  /**
   Postorder without a visited set: all dependencies, expanded again at every
   mention, then the name. `above` only cuts cycles; see ExpandUnfolds.
   */
  ghost function Expand(sc: Scope, name: string, above: set<string>): seq<string>
    decreases |sc.defs.Keys - above|, 0
  {
    if !sc.Listed(name) || name in above then []
    else
      AboveShrinks(sc, above, name);
      ExpandAll(sc, sc.Deps(name), above + {name}) + [name]
  }

  ghost function ExpandAll(sc: Scope, names: seq<string>, above: set<string>): seq<string>
    decreases |sc.defs.Keys - above|, 1 + |names|
  {
    if names == [] then [] else Expand(sc, names[0], above) + ExpandAll(sc, names[1..], above)
  }

  lemma AboveShrinks(sc: Scope, above: set<string>, name: string)
    requires name in sc.defs && name !in above
    ensures |sc.defs.Keys - (above + {name})| < |sc.defs.Keys - above|
  {
    assert sc.defs.Keys - (above + {name}) == (sc.defs.Keys - above) - {name};
  }

  /** Append what is new, in order of first occurrence. */
  function Dedup(acc: seq<string>, xs: seq<string>): seq<string>
    decreases |xs|
  {
    if xs == [] then acc
    else Dedup(if xs[0] in acc then acc else acc + [xs[0]], xs[1..])
  }

  lemma {:induction false} DedupConcat(acc: seq<string>, a: seq<string>, b: seq<string>)
    ensures Dedup(acc, a + b) == Dedup(Dedup(acc, a), b)
    decreases |a|
  {
    if a == [] {
      assert a + b == b;
    } else {
      assert (a + b)[1..] == a[1..] + b;
      DedupConcat(if a[0] in acc then acc else acc + [a[0]], a[1..], b);
    }
  }

  lemma {:induction false} DedupKnown(acc: seq<string>, xs: seq<string>)
    requires forall x :: x in xs ==> x in acc
    ensures Dedup(acc, xs) == acc
    decreases |xs|
  {
    if xs != [] {
      assert xs[0] in xs;
      DedupKnown(acc, xs[1..]);
    }
  }

  /** Expanding a finished name mentions only listed names. */
  lemma {:induction false} ExpandFinished(sc: Scope, st: Dfs, name: string, above: set<string>)
    requires SearchInv(sc, st) && name in st.visited
    ensures forall n :: n in Expand(sc, name, above) ==> n in NamesOf(st.resolved)
    decreases |sc.defs.Keys - above|, 0
  {
    if sc.Listed(name) && name !in above {
      AboveShrinks(sc, above, name);
      forall d | d in sc.Deps(name)
        ensures d in st.visited
      {
        Closed(sc, st, name, d);
      }
      ExpandAllFinished(sc, st, sc.Deps(name), above + {name});
    }
  }

  lemma {:induction false} ExpandAllFinished(sc: Scope, st: Dfs, names: seq<string>, above: set<string>)
    requires SearchInv(sc, st) && forall n :: n in names ==> n in st.visited
    ensures forall n :: n in ExpandAll(sc, names, above) ==> n in NamesOf(st.resolved)
    decreases |sc.defs.Keys - above|, 1 + |names|
  {
    if names != [] {
      assert names[0] in names;
      ExpandFinished(sc, st, names[0], above);
      ExpandAllFinished(sc, st, names[1..], above);
    }
  }

  ghost predicate InOrder(before: seq<ResolvedFixture>, after: seq<ResolvedFixture>, expansion: seq<string>) {
    NamesOf(after) == Dedup(NamesOf(before), expansion)
  }

  /** What a visit adds to the list is the expansion of its name, without what is there already. */
  lemma {:induction false} VisitOrder(sc: Scope, name: string, st: Dfs)
    requires SearchInv(sc, st) && StackInv(sc, st) && Extends(sc, st.stack, name)
    requires Visit(sc, name, st).Ok?
    ensures InOrder(st.resolved, Visit(sc, name, st).value.resolved, Expand(sc, name, set n | n in st.stack))
    decreases Room(sc, st.stack), 1
  {
    if name in st.visited {
      VisitedOrder(sc, name, st, set n | n in st.stack);
    } else if name !in sc.builtins {
      DescendOrder(sc, name, st);
    }
  }

  lemma VisitedOrder(sc: Scope, name: string, st: Dfs, above: set<string>)
    requires SearchInv(sc, st) && name in st.visited
    ensures InOrder(st.resolved, st.resolved, Expand(sc, name, above))
  {
    ExpandFinished(sc, st, name, above);
    DedupKnown(NamesOf(st.resolved), Expand(sc, name, above));
  }

  lemma {:induction false} DescendOrder(sc: Scope, name: string, st: Dfs)
    requires SearchInv(sc, st) && StackInv(sc, st) && Extends(sc, st.stack, name)
    requires name !in st.visited && name !in st.stack && sc.Listed(name) && Visit(sc, name, st).Ok?
    ensures InOrder(st.resolved, Visit(sc, name, st).value.resolved, Expand(sc, name, set n | n in st.stack))
    decreases Room(sc, st.stack), 0
  {
    var below := st.(stack := st.stack + [name]);
    RoomShrinks(sc, st.stack, name);
    PushKeeps(sc, st, name);
    DepsOk(sc, name, st, below);
    VisitAllOrder(sc, sc.Deps(name), below);
    OpenUnlisted(sc, name, below);
    PushAbove(st.stack, name);
    Unfolded(sc, name, st, below, set n | n in st.stack);
  }

  lemma DepsOk(sc: Scope, name: string, st: Dfs, below: Dfs)
    requires name !in st.visited && name !in st.stack && sc.Listed(name) && below == st.(stack := st.stack + [name])
    requires Visit(sc, name, st).Ok?
    ensures VisitAll(sc, sc.Deps(name), below).Ok?
  {}

  lemma PushAbove(stack: seq<string>, name: string)
    ensures (set n | n in stack + [name]) == (set n | n in stack) + {name}
  {}

  /** The dependencies are listed in order; finishing the name completes its expansion. */
  lemma Unfolded(sc: Scope, name: string, st: Dfs, below: Dfs, above: set<string>)
    requires name !in st.visited && name !in st.stack && sc.Listed(name) && below == st.(stack := st.stack + [name])
    requires name !in above && VisitAll(sc, sc.Deps(name), below).Ok?
    requires name !in NamesOf(VisitAll(sc, sc.Deps(name), below).value.resolved)
    requires InOrder(st.resolved, VisitAll(sc, sc.Deps(name), below).value.resolved, ExpandAll(sc, sc.Deps(name), above + {name}))
    ensures Visit(sc, name, st).Ok? && InOrder(st.resolved, Visit(sc, name, st).value.resolved, Expand(sc, name, above))
  {
    var inner := ExpandAll(sc, sc.Deps(name), above + {name});
    FinishOrder(st.resolved, VisitAll(sc, sc.Deps(name), below).value.resolved, inner, sc.Entry(name));
  }

  /** A name that is still on the stack is not listed yet. */
  lemma OpenUnlisted(sc: Scope, name: string, below: Dfs)
    requires SearchInv(sc, below) && StackInv(sc, below) && name in below.stack
    requires forall d :: d in sc.Deps(name) ==> Extends(sc, below.stack, d)
    requires VisitAll(sc, sc.Deps(name), below).Ok?
    ensures name !in NamesOf(VisitAll(sc, sc.Deps(name), below).value.resolved)
  {
    VisitAllOk(sc, sc.Deps(name), below);
  }

  lemma FinishOrder(before: seq<ResolvedFixture>, mid: seq<ResolvedFixture>, inner: seq<string>, entry: ResolvedFixture)
    requires InOrder(before, mid, inner) && entry.name !in NamesOf(mid)
    ensures InOrder(before, mid + [entry], inner + [entry.name])
  {
    DedupConcat(NamesOf(before), inner, [entry.name]);
    assert NamesOf(mid + [entry]) == NamesOf(mid) + [entry.name];
  }

  lemma {:induction false} VisitAllOrder(sc: Scope, names: seq<string>, st: Dfs)
    requires SearchInv(sc, st) && StackInv(sc, st)
    requires forall n :: n in names ==> Extends(sc, st.stack, n)
    requires VisitAll(sc, names, st).Ok?
    ensures InOrder(st.resolved, VisitAll(sc, names, st).value.resolved, ExpandAll(sc, names, set n | n in st.stack))
    decreases Room(sc, st.stack), 2 + |names|
  {
    if names != [] {
      assert names[0] in names;
      VisitOrder(sc, names[0], st);
      VisitOk(sc, names[0], st);
      var mid := Visit(sc, names[0], st).value;
      VisitAllOrder(sc, names[1..], mid);
      var above := set n | n in st.stack;
      DedupConcat(NamesOf(st.resolved), Expand(sc, names[0], above), ExpandAll(sc, names[1..], above));
    }
  }

  // ------------------------------------------- the cut never applies when acyclic

  lemma ReachableDown(sc: Scope, names: seq<string>, name: string, n: string)
    requires name in names && sc.Reachable(sc.Deps(name), n)
    ensures sc.Reachable(names, n)
  {
    ReachableStep(sc, name, n);
    ReachableWiden(sc, [name], names, n);
  }

  lemma AcyclicDown(sc: Scope, names: seq<string>, name: string)
    requires sc.Acyclic(names) && name in names
    ensures sc.Acyclic(sc.Deps(name)) && !sc.Reachable(sc.Deps(name), name)
  {
    forall c | sc.IsCycle(c)
      ensures !sc.Reachable(sc.Deps(name), c[0])
    {
      if sc.Reachable(sc.Deps(name), c[0]) {
        ReachableDown(sc, names, name, c[0]);
      }
    }
    if sc.Reachable(sc.Deps(name), name) {
      var p :| sc.PathFromTo(sc.Deps(name), p, name);
      var c := [name] + p;
      forall i | 0 <= i < |c| - 1
        ensures c[i + 1] in sc.Deps(c[i])
      {
        if i > 0 {
          assert p[i - 1 + 1] in sc.Deps(p[i - 1]);
        }
      }
      assert sc.IsCycle(c);
      ReachableSelf(sc, names, name);
    }
  }

  lemma {:induction false} AboveIrrelevant(sc: Scope, names: seq<string>, a: set<string>, b: set<string>)
    requires sc.Acyclic(names)
    requires forall x :: x in a + b ==> !sc.Reachable(names, x)
    ensures ExpandAll(sc, names, a) == ExpandAll(sc, names, b)
    decreases |sc.defs.Keys - a|, |names|
  {
    if names != [] {
      var name := names[0];
      ReachableSelf(sc, names, name);
      forall x | sc.Reachable(names[1..], x)
        ensures sc.Reachable(names, x)
      {
        ReachableWiden(sc, names[1..], names, x);
      }
      AboveIrrelevant(sc, names[1..], a, b);
      if sc.Listed(name) {
        AboveShrinks(sc, a, name);
        AcyclicDown(sc, names, name);
        forall x | x in (a + {name}) + (b + {name})
          ensures !sc.Reachable(sc.Deps(name), x)
        {
          if sc.Reachable(sc.Deps(name), x) {
            ReachableDown(sc, names, name, x);
          }
        }
        AboveIrrelevant(sc, sc.Deps(name), a + {name}, b + {name});
      }
    }
  }

  /** On an acyclic graph Expand is the plain recursive expansion. */
  lemma ExpandUnfolds(sc: Scope, roots: seq<string>, n: string)
    requires sc.Acyclic(roots) && n in roots && sc.Listed(n)
    ensures Expand(sc, n, {}) == ExpandAll(sc, sc.Deps(n), {}) + [n]
  {
    AcyclicDown(sc, roots, n);
    AboveIrrelevant(sc, sc.Deps(n), {n}, {});
    assert {} + {n} == {n};
  }

  /**
   The list a successful resolution returns is the naive expansion of the
   direct dependencies with later mentions dropped.
   */
  lemma PostorderDeduplicated(sc: Scope, roots: seq<string>)
    requires Solvable(sc, roots)
    ensures VisitAll(sc, roots, START).Ok?
    ensures NamesOf(VisitAll(sc, roots, START).value.resolved) == Dedup([], ExpandAll(sc, roots, {}))
  {
    SucceedsIff(sc, roots);
    StartInv(sc);
    VisitAllOrder(sc, roots, START);
    assert NamesOf(START.resolved) == [];
    assert (set n | n in START.stack) == {};
  }

  /**
   Resolving a test: it succeeds exactly if everything reachable from its
   non-injected arguments is defined and acyclic, and then lists the naive
   expansion without repetitions.
   */
  lemma ResolveTestCorrect(registry: FixtureRegistry, test: TestCase, modulePath: Path)
    ensures var sc := ScopeOf(registry, modulePath, test.name);
            var roots := Without(test.dependencies, test.parametrizedArgs);
            var r := Resolve(registry, test, modulePath);
            && (r.Ok? <==> Solvable(sc, roots))
            && (r.Ok? ==> NamesOf(r.value.fixtures) == Dedup([], ExpandAll(sc, roots, {})))
  {
    var sc, roots := ScopeOf(registry, modulePath, test.name), Without(test.dependencies, test.parametrizedArgs);
    SucceedsIff(sc, roots);
    if Solvable(sc, roots) {
      PostorderDeduplicated(sc, roots);
    }
  }

  /** Resolution starts with the first name: if that one is missing, it is what gets reported. */
  lemma FirstMissing(sc: Scope, roots: seq<string>)
    requires roots != []
    ensures VisitAll(sc, roots, START) == Err(MissingFixture(sc.testName, roots[0])) <==> sc.Missing(roots[0])
  {
    if VisitAll(sc, roots, START) == Err(MissingFixture(sc.testName, roots[0])) {
      ErrorsGenuine(sc, roots);
    }
  }

  /**
   Add `@patch.object` to decorators of which `k` are counted as injecting. The
   mock it passes makes one more leading argument a mock, but the argument after
   the `k` counted ones stays with the fixtures, unless it is a parametrize name:
   resolution starts with it, and reports it missing exactly if no fixture has
   its name.
   */
  lemma PatchObjectMissing(sc: Scope, before: seq<Expr>, after: seq<Expr>, args: seq<Expr>, keywords: seq<Keyword>,
                           funcArgs: seq<string>, injected: seq<string>)
    requires var ds := before + [PatchObject(args, keywords)] + after;
             forall a :: a in injected <==>
               || a in AllParametrizeNames(ds)
               || (PatchCount(ds) <= |funcArgs| && a in funcArgs[..PatchCount(ds)])
    requires Distinct(funcArgs) && PatchCount(before + after) < |funcArgs|
    requires funcArgs[PatchCount(before + after)] !in AllParametrizeNames(before + after)
    ensures var arg := funcArgs[PatchCount(before + after)];
            && arg in Without(funcArgs, injected)
            && (VisitAll(sc, Without(funcArgs, injected), START) == Err(MissingFixture(sc.testName, arg)) <==> sc.Missing(arg))
  {
    var ds, k := before + [PatchObject(args, keywords)] + after, PatchCount(before + after);
    PatchObjectIgnored(before, after, args, keywords);
    StartNames(ds, funcArgs, injected);
    var roots := Without(funcArgs, injected);
    assert roots == Without(funcArgs[k..], AllParametrizeNames(ds));
    assert roots[0] == funcArgs[k];
    FirstMissing(sc, roots);
  }

  // --------------------------------------------------------- all tests of a suite

  function ModuleTests(m: TestModule): (r: seq<(TestCase, Path)>)
    ensures |r| == |m.tests| && forall i :: 0 <= i < |r| ==> r[i] == (m.tests[i], m.path)
  {
    seq(|m.tests|, i requires 0 <= i < |m.tests| => (m.tests[i], m.path))
  }

  function TestsOf(modules: seq<TestModule>): seq<(TestCase, Path)> {
    if modules == [] then []
    else TestsOf(modules[..|modules| - 1]) + ModuleTests(modules[|modules| - 1])
  }

  /** Sort outcomes into the two lists, keeping the order. */
  function Successes(rs: seq<Result<RunnableTest>>): seq<RunnableTest> {
    if rs == [] then []
    else
      var k := |rs| - 1;
      Successes(rs[..k]) + if rs[k].Ok? then [rs[k].value] else []
  }

  function Failures(rs: seq<Result<RunnableTest>>): seq<ResolutionError> {
    if rs == [] then []
    else
      var k := |rs| - 1;
      Failures(rs[..k]) + if rs[k].Err? then [rs[k].error] else []
  }

  lemma SortSnoc(rs: seq<Result<RunnableTest>>, r: Result<RunnableTest>)
    ensures Successes(rs + [r]) == Successes(rs) + if r.Ok? then [r.value] else []
    ensures Failures(rs + [r]) == Failures(rs) + if r.Err? then [r.error] else []
  {
    assert (rs + [r])[..|rs|] == rs;
  }

  /** `rs` is what resolving each test on its own gives. */
  ghost predicate ResolvedEach(registry: FixtureRegistry, tests: seq<(TestCase, Path)>, rs: seq<Result<RunnableTest>>) {
    |rs| == |tests| && forall i :: 0 <= i < |rs| ==> rs[i] == Resolve(registry, tests[i].0, tests[i].1)
  }

  lemma ResolvedEachConcat(registry: FixtureRegistry, a: seq<(TestCase, Path)>, ra: seq<Result<RunnableTest>>,
                       b: seq<(TestCase, Path)>, rb: seq<Result<RunnableTest>>)
    requires ResolvedEach(registry, a, ra) && ResolvedEach(registry, b, rb)
    ensures ResolvedEach(registry, a + b, ra + rb)
  {}

  method ResolveModule(registry: FixtureRegistry, m: TestModule)
    returns (runnable: seq<RunnableTest>, errors: seq<ResolutionError>, ghost rs: seq<Result<RunnableTest>>)
    ensures ResolvedEach(registry, ModuleTests(m), rs)
    ensures runnable == Successes(rs) && errors == Failures(rs)
  {
    runnable, errors, rs := [], [], [];
    for j := 0 to |m.tests|
      invariant |rs| == j
      invariant forall i :: 0 <= i < j ==> rs[i] == Resolve(registry, m.tests[i], m.path)
      invariant runnable == Successes(rs) && errors == Failures(rs)
    {
      var r, _ := ResolveTest(registry, m.tests[j], m.path);
      SortSnoc(rs, r);
      rs := rs + [r];
      match r {
        case Ok(t) => runnable := runnable + [t];
        case Err(e) => errors := errors + [e];
      }
    }
  }

  lemma {:induction false} SortConcat(a: seq<Result<RunnableTest>>, b: seq<Result<RunnableTest>>)
    ensures Successes(a + b) == Successes(a) + Successes(b)
    ensures Failures(a + b) == Failures(a) + Failures(b)
  {
    if b == [] {
      assert a + b == a;
    } else {
      assert (a + b)[..|a + b| - 1] == a + b[..|b| - 1];
      SortConcat(a, b[..|b| - 1]);
    }
  }

  lemma {:induction false} SortTotal(rs: seq<Result<RunnableTest>>)
    ensures |Successes(rs)| + |Failures(rs)| == |rs|
  {
    if rs != [] {
      SortTotal(rs[..|rs| - 1]);
    }
  }

  /** Every test ends up in exactly one of the two lists, in discovery order. */
  method ResolveAll(registry: FixtureRegistry, result: DiscoveryResult)
    returns (runnable: seq<RunnableTest>, errors: seq<ResolutionError>, ghost rs: seq<Result<RunnableTest>>)
    ensures ResolvedEach(registry, TestsOf(result.modules), rs)
    ensures runnable == Successes(rs) && errors == Failures(rs)
    ensures |runnable| + |errors| == |TestsOf(result.modules)|
  {
    runnable, errors, rs := [], [], [];
    var modules := result.modules;
    for i := 0 to |modules|
      invariant ResolvedEach(registry, TestsOf(modules[..i]), rs)
      invariant runnable == Successes(rs) && errors == Failures(rs)
    {
      assert modules[..i + 1][..i] == modules[..i];
      var more, failed, own := ResolveModule(registry, modules[i]);
      SortConcat(rs, own);
      ResolvedEachConcat(registry, TestsOf(modules[..i]), rs, ModuleTests(modules[i]), own);
      runnable, errors, rs := runnable + more, errors + failed, rs + own;
    }
    assert modules[..|modules|] == modules;
    SortTotal(rs);
  }
}
