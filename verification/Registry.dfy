/** The three nested fixture maps and the tiered lookup over them. */
module Registry {
  import opened Wire
  import opened Strings
  import opened Discovery

  /** A fixture together with the file it comes from. */
  datatype Located = Located(def: FixtureDefinition, source: Path)

  datatype FixtureRegistry = FixtureRegistry(
    global: map<string, Located>,
    local: map<Path, map<string, FixtureDefinition>>,
    classScoped: map<(Path, string), map<string, FixtureDefinition>>)
  {
    /** Class scope, then module scope, then conftest scope. */
    function Lookup(name: string, modulePath: Path, testName: string): Option<Located> {
      var cls := ClassPrefix(testName);
      if "Test" <= cls && Contains(testName, "::")
         && (modulePath, cls) in classScoped && name in classScoped[(modulePath, cls)] then
        Some(Located(classScoped[(modulePath, cls)][name], modulePath))
      else if modulePath in local && name in local[modulePath] then
        Some(Located(local[modulePath][name], modulePath))
      else if name in global then Some(global[name])
      else None
    }

    /** Every name some tier defines. */
    ghost function Names(): set<string> {
      global.Keys
      + (set p, n | p in local && n in local[p] :: n)
      + (set k, n | k in classScoped && n in classScoped[k] :: n)
    }

  }

  /** `test_name.split("::").next()`. */
  function ClassPrefix(testName: string): string {
    match FindFrom(testName, "::", 0)
    case Some(i) => testName[..i]
    case None => testName
  }

  // --------------------------------------------------------- declarative view

  predicate IsConftest(path: Path) { FileName(path) == "conftest.py" }

  datatype Tier = ClassTier(path: Path, cls: string) | ModuleTier(path: Path) | ConftestTier

  predicate Matches(l: Located, tier: Tier, name: string) {
    && l.def.name == name
    && match tier
       case ClassTier(path, cls) => l.source == path && l.def.classScope == Some(cls)
       case ModuleTier(path) => l.source == path && l.def.classScope.None? && !IsConftest(path)
       case ConftestTier => l.def.classScope.None? && IsConftest(l.source)
  }

  /** The last definition of `name` in a tier, in discovery order. */
  function LastIn(defs: seq<Located>, tier: Tier, name: string): Option<Located> {
    if defs == [] then None
    else if Matches(defs[|defs| - 1], tier, name) then Some(defs[|defs| - 1])
    else LastIn(defs[..|defs| - 1], tier, name)
  }

  function Locate(path: Path, fs: seq<FixtureDefinition>): seq<Located> {
    seq(|fs|, i requires 0 <= i < |fs| => Located(fs[i], path))
  }

  function AllDefs(modules: seq<TestModule>): seq<Located> {
    if modules == [] then []
    else AllDefs(modules[..|modules| - 1]) + Locate(modules[|modules| - 1].path, modules[|modules| - 1].fixtures)
  }

  /** Scan all definitions instead of consulting the maps. */
  function Scan(defs: seq<Located>, name: string, modulePath: Path, testName: string): Option<Located> {
    var cls := ClassPrefix(testName);
    var inClass := if "Test" <= cls && Contains(testName, "::")
                   then LastIn(defs, ClassTier(modulePath, cls), name) else None;
    if inClass.Some? then inClass
    else
      var inModule := LastIn(defs, ModuleTier(modulePath), name);
      if inModule.Some? then inModule else LastIn(defs, ConftestTier, name)
  }

  // ------------------------------------------------------------- construction

  function Get<K, V>(m: map<K, V>, k: K): Option<V> { if k in m then Some(m[k]) else None }

  function GetClass(m: map<(Path, string), map<string, FixtureDefinition>>, path: Path, cls: string, name: string): Option<Located> {
    if (path, cls) in m && name in m[(path, cls)] then Some(Located(m[(path, cls)][name], path)) else None
  }

  function GetLocal(m: map<Path, map<string, FixtureDefinition>>, path: Path, name: string): Option<Located> {
    if path in m && name in m[path] then Some(Located(m[path][name], path)) else None
  }

  ghost predicate GlobalScans(global: map<string, Located>, defs: seq<Located>) {
    forall name :: Get(global, name) == LastIn(defs, ConftestTier, name)
  }

  ghost predicate ClassScans(m: map<(Path, string), map<string, FixtureDefinition>>, defs: seq<Located>) {
    forall path, cls, name :: GetClass(m, path, cls, name) == LastIn(defs, ClassTier(path, cls), name)
  }

  ghost predicate LocalScans(m: map<Path, map<string, FixtureDefinition>>, defs: seq<Located>) {
    forall path, name :: GetLocal(m, path, name) == LastIn(defs, ModuleTier(path), name)
  }

  /** What one module contributes to its own tier. */
  ghost predicate ModuleScans(fs: map<string, FixtureDefinition>, path: Path, defs: seq<Located>) {
    forall name :: (if name in fs then Some(Located(fs[name], path)) else None) == LastIn(defs, ModuleTier(path), name)
  }

  ghost predicate DistinctPaths(modules: seq<TestModule>) {
    forall i, j :: 0 <= i < j < |modules| ==> modules[i].path != modules[j].path
  }

  lemma LastInSnoc(defs: seq<Located>, l: Located)
    ensures forall tier, name ::
              LastIn(defs + [l], tier, name) == if Matches(l, tier, name) then Some(l) else LastIn(defs, tier, name)
  {}

  lemma {:induction false} LastInConcat(a: seq<Located>, b: seq<Located>, tier: Tier, name: string)
    ensures LastIn(a + b, tier, name) ==
            if LastIn(b, tier, name).Some? then LastIn(b, tier, name) else LastIn(a, tier, name)
  {
    if b == [] {
      assert a + b == a;
    } else {
      assert (a + b)[..|a + b| - 1] == a + b[..|b| - 1];
      LastInConcat(a, b[..|b| - 1], tier, name);
    }
  }

  lemma {:induction false} LastInForeign(defs: seq<Located>, path: Path, name: string)
    requires forall l :: l in defs ==> l.source != path
    ensures LastIn(defs, ModuleTier(path), name).None?
  {
    if defs != [] {
      assert defs[|defs| - 1] in defs;
      LastInForeign(defs[..|defs| - 1], path, name);
    }
  }

  lemma {:induction false} AllDefsSources(modules: seq<TestModule>, path: Path)
    requires forall m :: m in modules ==> m.path != path
    ensures forall l :: l in AllDefs(modules) ==> l.source != path
  {
    if modules != [] {
      AllDefsSources(modules[..|modules| - 1], path);
    }
  }

  /** The module tier after a module with a fresh path has been closed. */
  lemma CloseModule(local: map<Path, map<string, FixtureDefinition>>, fs: map<string, FixtureDefinition>,
                    path: Path, before: seq<Located>, own: seq<Located>)
    requires LocalScans(local, before)
    requires ModuleScans(fs, path, own)
    requires forall l :: l in before ==> l.source != path
    requires forall l :: l in own ==> l.source == path
    ensures LocalScans(if fs != map[] then local[path := fs] else local, before + own)
  {
    var after := if fs != map[] then local[path := fs] else local;
    forall p, name
      ensures GetLocal(after, p, name) == LastIn(before + own, ModuleTier(p), name)
    {
      LastInConcat(before, own, ModuleTier(p), name);
      LastInForeign(before, path, name);
      assert GetLocal(local, p, name) == LastIn(before, ModuleTier(p), name);
      if p != path {
        LastInForeign(own, p, name);
      }
    }
  }

  lemma RegisterClass(m: map<(Path, string), map<string, FixtureDefinition>>, defs: seq<Located>, path: Path, f: FixtureDefinition)
    requires f.classScope.Some?
    requires ClassScans(m, defs)
    ensures var key := (path, f.classScope.value);
            ClassScans(m[key := (if key in m then m[key] else map[])[f.name := f]], defs + [Located(f, path)])
  {
    var key := (path, f.classScope.value);
    var m' := m[key := (if key in m then m[key] else map[])[f.name := f]];
    forall p, c, n
      ensures GetClass(m', p, c, n) == LastIn(defs + [Located(f, path)], ClassTier(p, c), n)
    {}
  }

  method FromDiscovery(result: DiscoveryResult) returns (r: FixtureRegistry)
    ensures DistinctPaths(result.modules) ==>
              forall name, modulePath, testName ::
                r.Lookup(name, modulePath, testName) == Scan(AllDefs(result.modules), name, modulePath, testName)
  {
    var global: map<string, Located> := map[];
    var local: map<Path, map<string, FixtureDefinition>> := map[];
    var classScoped: map<(Path, string), map<string, FixtureDefinition>> := map[];
    var modules := result.modules;
    for i := 0 to |modules|
      invariant GlobalScans(global, AllDefs(modules[..i]))
      invariant ClassScans(classScoped, AllDefs(modules[..i]))
      invariant DistinctPaths(modules) ==> LocalScans(local, AllDefs(modules[..i]))
    {
      var m := modules[i];
      ghost var before := AllDefs(modules[..i]);
      var moduleFixtures: map<string, FixtureDefinition>;
      global, classScoped, moduleFixtures := ScanModule(m, global, classScoped, before);
      ghost var own := Locate(m.path, m.fixtures);
      assert modules[..i + 1][..i] == modules[..i];
      if DistinctPaths(modules) {
        AllDefsSources(modules[..i], m.path);
        CloseModule(local, moduleFixtures, m.path, before, own);
      }
      if moduleFixtures != map[] {
        local := local[m.path := moduleFixtures];
      }
    }
    assert modules[..|modules|] == modules;
    r := FixtureRegistry(global, local, classScoped);
    if DistinctPaths(modules) {
      LookupScans(r, AllDefs(modules));
    }
  }

  lemma LookupScans(r: FixtureRegistry, defs: seq<Located>)
    requires GlobalScans(r.global, defs) && ClassScans(r.classScoped, defs) && LocalScans(r.local, defs)
    ensures forall name, modulePath, testName ::
              r.Lookup(name, modulePath, testName) == Scan(defs, name, modulePath, testName)
  {}

  method ScanModule(m: TestModule, global0: map<string, Located>,
                    classScoped0: map<(Path, string), map<string, FixtureDefinition>>, ghost before: seq<Located>)
    returns (global: map<string, Located>, classScoped: map<(Path, string), map<string, FixtureDefinition>>,
             moduleFixtures: map<string, FixtureDefinition>)
    requires GlobalScans(global0, before) && ClassScans(classScoped0, before)
    ensures GlobalScans(global, before + Locate(m.path, m.fixtures))
    ensures ClassScans(classScoped, before + Locate(m.path, m.fixtures))
    ensures ModuleScans(moduleFixtures, m.path, Locate(m.path, m.fixtures))
  {
    global, classScoped, moduleFixtures := global0, classScoped0, map[];
    var isConftest := IsConftest(m.path);
    assert before + Locate(m.path, m.fixtures[..0]) == before;
    for j := 0 to |m.fixtures|
      invariant GlobalScans(global, before + Locate(m.path, m.fixtures[..j]))
      invariant ClassScans(classScoped, before + Locate(m.path, m.fixtures[..j]))
      invariant ModuleScans(moduleFixtures, m.path, Locate(m.path, m.fixtures[..j]))
    {
      var f := m.fixtures[j];
      ghost var own, l := Locate(m.path, m.fixtures[..j]), Located(f, m.path);
      assert Locate(m.path, m.fixtures[..j + 1]) == own + [l];
      assert before + (own + [l]) == (before + own) + [l];
      LastInSnoc(before + own, l);
      LastInSnoc(own, l);
      if f.classScope.Some? {
        RegisterClass(classScoped, before + own, m.path, f);
        var key := (m.path, f.classScope.value);
        classScoped := classScoped[key := (if key in classScoped then classScoped[key] else map[])[f.name := f]];
      } else if isConftest {
        global := global[f.name := Located(f, m.path)];
      } else {
        moduleFixtures := moduleFixtures[f.name := f];
      }
    }
    assert m.fixtures[..|m.fixtures|] == m.fixtures;
  }

  // ----------------------------------------------------------- which tier is asked

  lemma PrefixOf(cls: string, method_: string)
    requires ':' !in cls
    ensures ClassPrefix(cls + "::" + method_) == cls && Contains(cls + "::" + method_, "::")
  {
    var s := cls + "::" + method_;
    assert s[|cls|..|cls| + 2] == "::";
    assert Occurs(s, "::", |cls|);
    forall i: nat | i < |cls|
      ensures !Occurs(s, "::", i)
    {
      assert s[i] == cls[i] && cls[i] in cls;
      assert s[i..i + 2][0] == s[i];
    }
    assert s[..|cls|] == cls;
  }

  /** For a method of a test class, the fixtures of that class shadow those of the module, and these the shared ones. */
  lemma ClassShadows(defs: seq<Located>, name: string, path: Path, cls: string, method_: string)
    requires "Test" <= cls && ':' !in cls
    ensures var found := Scan(defs, name, path, cls + "::" + method_);
            if LastIn(defs, ClassTier(path, cls), name).Some? then found == LastIn(defs, ClassTier(path, cls), name)
            else found == if LastIn(defs, ModuleTier(path), name).Some? then LastIn(defs, ModuleTier(path), name)
                          else LastIn(defs, ConftestTier, name)
  {
    PrefixOf(cls, method_);
  }

  /** A test outside a test class sees the fixtures of no class. */
  lemma NoClassNoShadow(defs: seq<Located>, name: string, path: Path, testName: string)
    requires !Contains(testName, "::") || !("Test" <= testName)
    ensures Scan(defs, name, path, testName) ==
            if LastIn(defs, ModuleTier(path), name).Some? then LastIn(defs, ModuleTier(path), name)
            else LastIn(defs, ConftestTier, name)
  {
    var cls := ClassPrefix(testName);
    assert "Test" <= cls ==> "Test" <= testName;
  }

  /** Shared fixtures are those of files named `conftest.py`, in any directory. */
  lemma ConftestNames(dir: string, name: string)
    requires '/' !in name
    ensures IsConftest(dir + "/" + name) <==> name == "conftest.py"
    ensures IsConftest(name) <==> name == "conftest.py"
  {
    FileNameLast(dir, name);
    FileNameAlone(name);
  }
}
