/**
 What discovery hands to the resolver, and which arguments of a test function
 it marks as injected by decorators instead of by fixtures.
 */
module Discovery {
  import opened Wire
  import opened Strings

  type Path = string

  datatype FixtureScope = FunctionScope | ClassScope | ModuleScope | SessionScope

  datatype FixtureDefinition = FixtureDefinition(
    name: string, scope: FixtureScope, dependencies: seq<string>,
    params: Option<seq<string>>, classScope: Option<string>)

  datatype TestCase = TestCase(
    name: string, dependencies: seq<string>, isAsync: bool, lineNumber: nat, parametrizedArgs: seq<string>)

  datatype TestModule = TestModule(path: Path, tests: seq<TestCase>, fixtures: seq<FixtureDefinition>)

  datatype DiscoveryResult = DiscoveryResult(modules: seq<TestModule>)

  // ----------------------------------------------------- decorator expressions

  datatype Keyword = Keyword(arg: Option<string>, value: Expr)

  datatype Expr =
    | Call(func: Expr, args: seq<Expr>, keywords: seq<Keyword>)
    | Attribute(value: Expr, attr: string)
    | Name(id: string)
    | Str(s: string)
    | List(elts: seq<Expr>)
    | Tuple(elts: seq<Expr>)
    | Other

  predicate IsParametrize(e: Expr) {
    match e
    case Call(f, _, _) => IsParametrize(f)
    case Attribute(_, attr) => attr == "parametrize"
    case _ => false
  }

  predicate IsPatch(e: Expr) {
    match e
    case Call(f, _, _) => IsPatch(f)
    case Attribute(_, attr) => attr == "patch" || "patch." <= attr
    case Name(id) => id == "patch"
    case _ => false
  }

  /** What is called in the end, once calls are unwrapped. */
  function Callee(e: Expr): Expr {
    if e.Call? then Callee(e.func) else e
  }

  /** The last identifier of a dotted name. */
  function LastName(e: Expr): Option<string> {
    match e
    case Attribute(_, attr) => Some(attr)
    case Name(id) => Some(id)
    case _ => None
  }

  /**
   A patch is recognised by the last identifier alone: it must be `patch`.
   The prefix test for `patch.` only fires on a text no identifier can be.
   */
  lemma {:induction false} IsPatchIff(e: Expr)
    ensures IsPatch(e) <==>
            var c := Callee(e); LastName(c) == Some("patch") || (c.Attribute? && "patch." <= c.attr)
    ensures LastName(Callee(e)).Some? && '.' !in LastName(Callee(e)).value ==>
              (IsPatch(e) <==> LastName(Callee(e)) == Some("patch"))
  {
    if e.Call? {
      IsPatchIff(e.func);
    } else if e.Attribute? && "patch." <= e.attr {
      assert e.attr[5] == '.';
    }
  }

  /** A patch call injects a mock unless it names a replacement. */
  predicate PatchInjects(e: Expr) {
    && IsPatch(e) && e.Call?
    && |e.args| < 2
    && forall k :: k in e.keywords ==> k.arg != Some("new")
  }

  /** `count_patch_decorators`. */
  function PatchCount(decorators: seq<Expr>): (n: nat)
    ensures n <= |decorators|
  {
    if decorators == [] then 0
    else (if PatchInjects(decorators[0]) then 1 else 0) + PatchCount(decorators[1..])
  }

  // ------------------------------------------------------- parametrize names

  function NonEmptyTrimmed(parts: seq<string>): seq<string> {
    if parts == [] then []
    else (if Trim(parts[0]) == "" then [] else [Trim(parts[0])]) + NonEmptyTrimmed(parts[1..])
  }

  function StringElements(elts: seq<Expr>): seq<string> {
    if elts == [] then []
    else (if elts[0].Str? then [elts[0].s] else []) + StringElements(elts[1..])
  }

  /** The names one decorator provides: its first argument, in any of three notations. */
  function ParametrizeNames(d: Expr): seq<string> {
    if !IsParametrize(d) || !d.Call? || d.args == [] then []
    else match d.args[0]
      case Str(s) => NonEmptyTrimmed(Split(s, ','))
      case List(elts) => StringElements(elts)
      case Tuple(elts) => StringElements(elts)
      case _ => []
  }

  function AllParametrizeNames(decorators: seq<Expr>): seq<string> {
    if decorators == [] then [] else ParametrizeNames(decorators[0]) + AllParametrizeNames(decorators[1..])
  }

  lemma {:induction false} AllParametrizeNamesAppend(ds: seq<Expr>, d: Expr)
    ensures AllParametrizeNames(ds + [d]) == AllParametrizeNames(ds) + ParametrizeNames(d)
  {
    if ds == [] {
      assert ds + [d] == [d];
    } else {
      assert (ds + [d])[1..] == ds[1..] + [d];
      AllParametrizeNamesAppend(ds[1..], d);
    }
  }

  lemma {:induction false} NonEmptyTrimmedAppend(ps: seq<string>, p: string)
    ensures NonEmptyTrimmed(ps + [p]) == NonEmptyTrimmed(ps) + (if Trim(p) == "" then [] else [Trim(p)])
  {
    if ps == [] {
      assert ps + [p] == [p];
    } else {
      assert (ps + [p])[1..] == ps[1..] + [p];
      NonEmptyTrimmedAppend(ps[1..], p);
    }
  }

  lemma {:induction false} StringElementsAppend(es: seq<Expr>, e: Expr)
    ensures StringElements(es + [e]) == StringElements(es) + (if e.Str? then [e.s] else [])
  {
    if es == [] {
      assert es + [e] == [e] && [e][1..] == [];
    } else {
      assert (es + [e])[1..] == es[1..] + [e];
      StringElementsAppend(es[1..], e);
      Assoc(if es[0].Str? then [es[0].s] else [], StringElements(es[1..]), if e.Str? then [e.s] else []);
    }
  }

  method PushStrings(args: seq<string>, elts: seq<Expr>) returns (r: seq<string>)
    ensures r == args + StringElements(elts)
  {
    r := args;
    for i := 0 to |elts|
      invariant r == args + StringElements(elts[..i])
    {
      assert elts[..i + 1] == elts[..i] + [elts[i]];
      StringElementsAppend(elts[..i], elts[i]);
      if elts[i].Str? {
        r := r + [elts[i].s];
      }
    }
    assert elts[..|elts|] == elts;
  }

  method PushTrimmed(args: seq<string>, parts: seq<string>) returns (r: seq<string>)
    ensures r == args + NonEmptyTrimmed(parts)
  {
    r := args;
    for j := 0 to |parts|
      invariant r == args + NonEmptyTrimmed(parts[..j])
    {
      assert parts[..j + 1] == parts[..j] + [parts[j]];
      NonEmptyTrimmedAppend(parts[..j], parts[j]);
      var trimmed := Trim(parts[j]);
      if trimmed != "" {
        r := r + [trimmed];
      }
    }
    assert parts[..|parts|] == parts;
  }

  method ExtractParametrizedArgs(decorators: seq<Expr>) returns (args: seq<string>)
    ensures args == AllParametrizeNames(decorators)
  {
    args := [];
    for i := 0 to |decorators|
      invariant args == AllParametrizeNames(decorators[..i])
    {
      var d := decorators[i];
      assert decorators[..i + 1] == decorators[..i] + [d];
      AllParametrizeNamesAppend(decorators[..i], d);
      if !IsParametrize(d) {
        continue;
      }
      if d.Call? && |d.args| > 0 {
        match d.args[0] {
          case Str(s) =>
            args := PushTrimmed(args, Split(s, ','));
          case List(elts) => args := PushStrings(args, elts);
          case Tuple(elts) => args := PushStrings(args, elts);
          case _ =>
        }
      }
    }
    assert decorators[..|decorators|] == decorators;
  }

  /** Parametrize names first, then the leading arguments that patches fill. */
  method ExtractInjectedArgs(decorators: seq<Expr>, funcArgs: seq<string>) returns (injected: seq<string>)
    ensures var k := PatchCount(decorators);
            forall a :: a in injected <==>
              a in AllParametrizeNames(decorators) || (k <= |funcArgs| && a in funcArgs[..k])
    ensures AllParametrizeNames(decorators) <= injected
  {
    injected := ExtractParametrizedArgs(decorators);
    var k := PatchCount(decorators);
    if k > 0 && |funcArgs| >= k {
      for i := 0 to k
        invariant AllParametrizeNames(decorators) <= injected
        invariant forall a :: a in injected <==> a in AllParametrizeNames(decorators) || a in funcArgs[..i]
      {
        assert funcArgs[..i + 1] == funcArgs[..i] + [funcArgs[i]];
        if funcArgs[i] !in injected {
          injected := injected + [funcArgs[i]];
        }
      }
    }
  }

  // -------------------------------------------------- where resolution starts

  /** The dependencies of a test that are not injected, in order. */
  function Without(names: seq<string>, removed: seq<string>): (r: seq<string>)
    ensures forall n :: n in r <==> n in names && n !in removed
  {
    if names == [] then []
    else (if names[0] in removed then [] else [names[0]]) + Without(names[1..], removed)
  }

  ghost predicate Distinct<T(!new)>(s: seq<T>) {
    forall i, j :: 0 <= i < j < |s| ==> s[i] != s[j]
  }

  lemma {:induction false} WithoutConcat(a: seq<string>, b: seq<string>, removed: seq<string>)
    ensures Without(a + b, removed) == Without(a, removed) + Without(b, removed)
  {
    if a == [] {
      assert a + b == b;
    } else {
      assert (a + b)[1..] == a[1..] + b;
      WithoutConcat(a[1..], b, removed);
    }
  }

  lemma {:induction false} WithoutAgrees(names: seq<string>, r1: seq<string>, r2: seq<string>)
    requires forall n :: n in names ==> (n in r1 <==> n in r2)
    ensures Without(names, r1) == Without(names, r2)
  {
    if names != [] {
      assert names[0] in names;
      WithoutAgrees(names[1..], r1, r2);
    }
  }

  lemma {:induction false} WithoutAll(names: seq<string>, removed: seq<string>)
    requires forall n :: n in names ==> n in removed
    ensures Without(names, removed) == []
  {
    if names != [] {
      assert names[0] in names;
      WithoutAll(names[1..], removed);
    }
  }

  /**
   The names resolution starts from are the arguments in order, minus the
   parametrize names, minus the first k arguments when k patches inject and
   there are that many arguments. Python rejects repeated argument names.
   */
  lemma StartNames(decorators: seq<Expr>, funcArgs: seq<string>, injected: seq<string>)
    requires Distinct(funcArgs)
    requires forall a :: a in injected <==>
               || a in AllParametrizeNames(decorators)
               || (PatchCount(decorators) <= |funcArgs| && a in funcArgs[..PatchCount(decorators)])
    ensures var k := PatchCount(decorators);
            Without(funcArgs, injected) ==
            Without(if k <= |funcArgs| then funcArgs[k..] else funcArgs, AllParametrizeNames(decorators))
  {
    var k, ps := PatchCount(decorators), AllParametrizeNames(decorators);
    if k <= |funcArgs| {
      assert funcArgs == funcArgs[..k] + funcArgs[k..];
      WithoutConcat(funcArgs[..k], funcArgs[k..], injected);
      WithoutAll(funcArgs[..k], injected);
      WithoutAgrees(funcArgs[k..], injected, ps);
    } else {
      WithoutAgrees(funcArgs, injected, ps);
    }
  }

  // ------------------------------------------------------------------ patch.object

  /** `@patch.object(…)`. */
  function PatchObject(args: seq<Expr>, keywords: seq<Keyword>): Expr {
    Call(Attribute(Name("patch"), "object"), args, keywords)
  }

  lemma PatchObjectPlain(args: seq<Expr>, keywords: seq<Keyword>)
    ensures !IsPatch(PatchObject(args, keywords)) && !IsParametrize(PatchObject(args, keywords))
  {
    var e := Attribute(Name("patch"), "object");
    assert e.attr[0] == 'o' && |e.attr| == 6;
    assert !IsPatch(e) && !IsParametrize(e);
  }

  lemma {:induction false} PatchCountConcat(a: seq<Expr>, b: seq<Expr>)
    ensures PatchCount(a + b) == PatchCount(a) + PatchCount(b)
  {
    if a == [] {
      assert a + b == b;
    } else {
      assert (a + b)[1..] == a[1..] + b;
      PatchCountConcat(a[1..], b);
    }
  }

  lemma {:induction false} ParametrizeConcat(a: seq<Expr>, b: seq<Expr>)
    ensures AllParametrizeNames(a + b) == AllParametrizeNames(a) + AllParametrizeNames(b)
  {
    if a == [] {
      assert a + b == b;
    } else {
      assert (a + b)[1..] == a[1..] + b;
      ParametrizeConcat(a[1..], b);
      Assoc(ParametrizeNames(a[0]), AllParametrizeNames(a[1..]), AllParametrizeNames(b));
    }
  }

  lemma CountSkips(before: seq<Expr>, d: Expr, after: seq<Expr>)
    requires !PatchInjects(d)
    ensures PatchCount(before + [d] + after) == PatchCount(before + after)
  {
    assert [d][1..] == [];
    PatchCountConcat(before + [d], after);
    PatchCountConcat(before, [d]);
    PatchCountConcat(before, after);
  }

  lemma NamesSkip(before: seq<Expr>, d: Expr, after: seq<Expr>)
    requires !IsParametrize(d)
    ensures AllParametrizeNames(before + [d] + after) == AllParametrizeNames(before + after)
  {
    assert [d][1..] == [];
    ParametrizeConcat(before + [d], after);
    ParametrizeConcat(before, [d]);
    ParametrizeConcat(before, after);
  }

  /** Wherever it stands among the decorators, `@patch.object` contributes nothing. */
  lemma PatchObjectIgnored(before: seq<Expr>, after: seq<Expr>, args: seq<Expr>, keywords: seq<Keyword>)
    ensures var ds := before + [PatchObject(args, keywords)] + after;
            PatchCount(ds) == PatchCount(before + after) && AllParametrizeNames(ds) == AllParametrizeNames(before + after)
  {
    PatchObjectPlain(args, keywords);
    CountSkips(before, PatchObject(args, keywords), after);
    NamesSkip(before, PatchObject(args, keywords), after);
  }
}
