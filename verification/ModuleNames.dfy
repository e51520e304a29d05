/** From file paths to dotted module names. */
module ModuleNames {
  import opened Wire
  import opened Strings

  /** Position of the dot that starts the file name's extension; a leading dot is not one. */
  function ExtensionDot(path: string): (r: Option<nat>)
    ensures r.Some? ==> 0 < r.value < |path| && path[r.value] == '.' && path[r.value - 1] != '/'
  {
    if path == "" then None
    else
      var k := |path| - 1;
      if path[k] == '/' then None
      else if path[k] == '.' then (if k == 0 || path[k - 1] == '/' then None else Some(k))
      else ExtensionDot(path[..k])
  }

  /** `with_extension("")`. */
  function WithoutExtension(path: string): string {
    var dot := ExtensionDot(path);
    if dot.Some? then path[..dot.value] else path
  }

  predicate IsPythonFile(path: string) {
    var dot := ExtensionDot(path);
    dot.Some? && path[dot.value + 1..] == "py"
  }

  /** `strip_prefix(root)`, or the whole path. */
  function Relative(root: string, path: string): string {
    if root + "/" <= path then path[|root| + 1..] else path
  }

  const INIT: string := ".__init__"

  /** `trim_end_matches(".__init__")`. */
  function TrimInit(name: string): string
    decreases |name|
  {
    if EndsWith(name, INIT) then TrimInit(name[..|name| - |INIT|]) else name
  }

  function ModuleName(root: string, path: string): string {
    TrimInit(ReplaceChar(WithoutExtension(Relative(root, path)), '/', '.'))
  }

  predicate IsPackage(path: string) { FileName(path) == "__init__.py" }

  // ------------------------------------------------------------------ rendering

  lemma {:induction false} JoinSnoc(segs: seq<string>, last: string, sep: char)
    requires segs != []
    ensures Join(segs + [last], sep) == Join(segs, sep) + ([sep] + last)
  {
    var all := segs + [last];
    assert all[1..] == segs[1..] + [last];
    if |segs| == 1 {
      assert all[1..] == [last];
    } else {
      JoinSnoc(segs[1..], last, sep);
      Assoc(segs[0] + [sep], Join(segs[1..], sep), [sep] + last);
    }
  }

  ghost predicate IsSegment(s: string) { s != "" && '.' !in s && '/' !in s && s != "__init__" }

  function ModuleFile(segs: seq<string>): string { Join(segs, '/') + ".py" }

  function PackageFile(segs: seq<string>): string { Join(segs, '/') + "/__init__.py" }

  lemma ExtensionOfPy(s: string)
    requires s != "" && s[|s| - 1] != '/'
    ensures WithoutExtension(s + ".py") == s && IsPythonFile(s + ".py")
  {
    var p := s + ".py";
    assert p[..|p| - 1] == s + ".p";
    assert (s + ".p")[..|s| + 1] == s + ".";
    assert ExtensionDot(s + ".") == ExtensionDot(s + ".p") == ExtensionDot(p) == Some(|s|);
    assert p[..|s|] == s && p[|s| + 1..] == "py";
  }

  /** The Python files are those whose name ends in `.py`, with something before it. */
  lemma PythonFileIff(path: string)
    ensures IsPythonFile(path) <==> EndsWith(path, ".py") && |path| > 3 && path[|path| - 4] != '/'
  {
    if EndsWith(path, ".py") && |path| > 3 && path[|path| - 4] != '/' {
      var s := path[..|path| - 3];
      assert path == s + ".py";
      ExtensionOfPy(s);
    }
    if IsPythonFile(path) {
      var dot := ExtensionDot(path).value;
      assert path[dot..] == [path[dot]] + path[dot + 1..];
    }
  }

  lemma ReplaceConcat(a: string, b: string, x: char, y: char)
    ensures ReplaceChar(a + b, x, y) == ReplaceChar(a, x, y) + ReplaceChar(b, x, y)
  {}

  lemma ReplacePlain(s: string, x: char, y: char)
    requires x !in s
    ensures ReplaceChar(s, x, y) == s
  {}

  lemma {:induction false} SlashesToDots(segs: seq<string>)
    requires forall s :: s in segs ==> '/' !in s
    ensures ReplaceChar(Join(segs, '/'), '/', '.') == Join(segs, '.')
  {
    if segs != [] {
      assert segs[0] in segs;
      ReplacePlain(segs[0], '/', '.');
      if |segs| > 1 {
        SlashesToDots(segs[1..]);
        ReplaceConcat(segs[0] + ['/'], Join(segs[1..], '/'), '/', '.');
        ReplaceConcat(segs[0], ['/'], '/', '.');
        assert ReplaceChar(['/'], '/', '.') == ['.'];
      }
    }
  }

  /** A name that ends in `.__init__` has `__init__` as its last segment. */
  lemma InitIsLast(before: string, last: string)
    requires '.' !in last && (before == "" || before[|before| - 1] == '.')
    requires EndsWith(before + last, INIT)
    ensures last == "__init__"
  {
    var s := before + last;
    var k := |s| - |INIT|;
    assert s[k..][0] == '.';
    assert k < |before| ==> s[k..][|before| - 1 - k] == before[|before| - 1];
    assert forall i :: 0 < i < |INIT| ==> INIT[i] != '.';
    assert k == |before| - 1;
    assert s[k..][1..] == last && INIT[1..] == "__init__";
  }

  lemma DottedNotInit(segs: seq<string>)
    requires segs != [] && forall s :: s in segs ==> IsSegment(s)
    ensures !EndsWith(Join(segs, '.'), INIT)
  {
    var k := |segs| - 1;
    var before := if k == 0 then "" else Join(segs[..k], '.') + ".";
    assert segs[k] in segs && segs == segs[..k] + [segs[k]];
    if k > 0 {
      JoinSnoc(segs[..k], segs[k], '.');
      Assoc(Join(segs[..k], '.'), ".", segs[k]);
    }
    assert Join(segs, '.') == before + segs[k];
    if EndsWith(before + segs[k], INIT) {
      InitIsLast(before, segs[k]);
    }
  }

  lemma JoinEnds(segs: seq<string>, sep: char)
    requires segs != [] && segs[|segs| - 1] != ""
    ensures var j := Join(segs, sep); var last := segs[|segs| - 1];
            j != "" && j[|j| - 1] == last[|last| - 1]
  {}

  /** A module file's name is its dotted segments. */
  lemma ModuleFileInverts(segs: seq<string>)
    requires segs != [] && forall s :: s in segs ==> IsSegment(s)
    ensures TrimInit(ReplaceChar(WithoutExtension(ModuleFile(segs)), '/', '.')) == Join(segs, '.')
  {
    ModuleFileDotted(segs);
    DottedNotInit(segs);
  }

  /** A package file is the module file of its `__init__`. */
  lemma PackageIsModule(segs: seq<string>)
    requires segs != []
    ensures PackageFile(segs) == ModuleFile(segs + ["__init__"])
  {
    JoinSnoc(segs, "__init__", '/');
    Assoc(Join(segs, '/'), ['/'] + "__init__", ".py");
    assert ['/'] + "__init__" + ".py" == "/__init__.py";
  }

  lemma DottedInit(segs: seq<string>)
    requires segs != []
    ensures Join(segs + ["__init__"], '.') == Join(segs, '.') + INIT
  {
    JoinSnoc(segs, "__init__", '.');
    assert ['.'] + "__init__" == INIT;
  }

  lemma ModuleFileDotted(segs: seq<string>)
    requires segs != [] && forall s :: s in segs ==> s != "" && '/' !in s
    ensures ReplaceChar(WithoutExtension(ModuleFile(segs)), '/', '.') == Join(segs, '.')
  {
    var last := segs[|segs| - 1];
    assert last in segs && last[|last| - 1] in last;
    JoinEnds(segs, '/');
    ExtensionOfPy(Join(segs, '/'));
    SlashesToDots(segs);
  }

  /** A package's `__init__` file has the package's name. */
  lemma PackageFileInverts(segs: seq<string>)
    requires segs != [] && forall s :: s in segs ==> IsSegment(s)
    ensures TrimInit(ReplaceChar(WithoutExtension(PackageFile(segs)), '/', '.')) == Join(segs, '.')
  {
    PackageIsModule(segs);
    ModuleFileDotted(segs + ["__init__"]);
    DottedInit(segs);
    DottedNotInit(segs);
    TrimsOnce(Join(segs, '.'));
  }

  lemma TrimsOnce(name: string)
    requires !EndsWith(name, INIT)
    ensures TrimInit(name + INIT) == name
  {
    assert (name + INIT)[|name|..] == INIT && (name + INIT)[..|name|] == name;
  }

  /** Both renderings, below any project root. */
  lemma ModuleNameInverts(root: string, segs: seq<string>)
    requires segs != [] && forall s :: s in segs ==> IsSegment(s)
    ensures ModuleName(root, root + "/" + ModuleFile(segs)) == Join(segs, '.')
    ensures ModuleName(root, root + "/" + PackageFile(segs)) == Join(segs, '.')
  {
    ModuleFileInverts(segs);
    PackageFileInverts(segs);
    assert (root + "/" + ModuleFile(segs))[|root| + 1..] == ModuleFile(segs);
    assert (root + "/" + PackageFile(segs))[|root| + 1..] == PackageFile(segs);
  }

  /** Package files are told from module files. */
  lemma PackageFlag(segs: seq<string>)
    requires segs != [] && forall s :: s in segs ==> IsSegment(s)
    ensures IsPackage(PackageFile(segs)) && !IsPackage(ModuleFile(segs))
  {
    FileNameLast(Join(segs, '/'), "__init__.py");
    assert Join(segs, '/') + "/" + "__init__.py" == PackageFile(segs);
    var k := |segs| - 1;
    var last := segs[k];
    assert last in segs && segs == segs[..k] + [last];
    var name := last + ".py";
    if k == 0 {
      FileNameAlone(name);
    } else {
      JoinSnoc(segs[..k], last, '/');
      var dir := Join(segs[..k], '/');
      assert ModuleFile(segs) == dir + "/" + name;
      FileNameLast(dir, name);
    }
    assert name[..|last|] == last && "__init__.py"[..8] == "__init__";
  }
}
