/** The bytecode compiler and the module registry as the source runs them. */
module Loader {
  import opened Wire
  import opened Strings
  import opened Outcomes
  import opened ModuleNames
  import opened BytecodeCache

  datatype BytecodeEntry = BytecodeEntry(name: string, sourcePath: string, bytecode: seq<byte>, isPackage: bool)

  class ModuleRegistry {
    var entries: map<string, BytecodeEntry>

    constructor ()
      ensures entries == map[]
    {
      entries := map[];
    }

    method Insert(entry: BytecodeEntry)
      modifies this
      ensures entries == old(entries)[entry.name := entry]
    {
      entries := entries[entry.name := entry];
    }
  }

  /** What `compile_batch` registers for a file, if compiling it succeeded. */
  function EntryFor(root: string, file: string, bytecode: seq<byte>): BytecodeEntry {
    BytecodeEntry(ModuleName(root, file), file, bytecode, IsPackage(file))
  }

  /** The result of each file: `None` for files that are skipped or fail. */
  type Results = seq<Option<seq<byte>>>

  /** One file of a batch. */
  function CompileOne(code: Compiler, d: Disk, py: Interpreter, root: string, file: string, now: nat): (Disk, Option<seq<byte>>) {
    if IsPythonFile(file) then
      var (d', r) := Compile(code, d, py, Relative(root, file), now);
      (d', if r.Ok? then Some(r.value) else None)
    else (d, None)
  }

  /** Compiling the Python files one after the other, on a disk that changes under way. */
  function Batch(code: Compiler, d: Disk, py: Interpreter, root: string, files: seq<string>, clock: seq<nat>): (r: (Disk, Results))
    requires |clock| == |files|
    ensures |r.1| == |files|
  {
    if files == [] then (d, [])
    else
      var k := |files| - 1;
      var (d1, rs) := Batch(code, d, py, root, files[..k], clock[..k]);
      var (d2, r) := CompileOne(code, d1, py, root, files[k], clock[k]);
      (d2, rs + [r])
  }

  /** The entries of the successfully compiled files, in batch order. */
  function Compiled(root: string, files: seq<string>, results: Results): seq<BytecodeEntry>
    requires |results| == |files|
  {
    if files == [] then []
    else
      var k := |files| - 1;
      Compiled(root, files[..k], results[..k])
      + if results[k].Some? then [EntryFor(root, files[k], results[k].value)] else []
  }

  /** The last entry with this name. */
  function LastNamed(es: seq<BytecodeEntry>, name: string): Option<BytecodeEntry> {
    if es == [] then None
    else if es[|es| - 1].name == name then Some(es[|es| - 1])
    else LastNamed(es[..|es| - 1], name)
  }

  function Held(entries: map<string, BytecodeEntry>, name: string): Option<BytecodeEntry> {
    if name in entries then Some(entries[name]) else None
  }

  /** Each name holds the last successfully compiled file that maps to it, or what it held before. */
  ghost predicate LastWins(before: map<string, BytecodeEntry>, entries: map<string, BytecodeEntry>, es: seq<BytecodeEntry>) {
    forall name :: Held(entries, name) == if LastNamed(es, name).Some? then LastNamed(es, name) else Held(before, name)
  }

  lemma InsertKeeps(before: map<string, BytecodeEntry>, entries: map<string, BytecodeEntry>, es: seq<BytecodeEntry>, e: BytecodeEntry)
    requires LastWins(before, entries, es)
    ensures LastWins(before, entries[e.name := e], es + [e])
    ensures |entries[e.name := e]| <= |entries| + 1
  {
    var after := entries[e.name := e];
    forall name
      ensures Held(after, name) ==
              if LastNamed(es + [e], name).Some? then LastNamed(es + [e], name) else Held(before, name)
    {
    }
  }

  class BytecodeCompiler {
    const root: string
    const code: Compiler
    const py: Interpreter
    var disk: Disk

    constructor (root: string, code: Compiler, py: Interpreter, disk: Disk)
      ensures this.root == root && this.code == code && this.py == py && this.disk == disk
    {
      this.root, this.code, this.py, this.disk := root, code, py, disk;
    }

    /** Use the cache file if it is fresh and of this interpreter, else write a new one first. */
    method CompileFile(source: string, now: nat) returns (r: Outcome<seq<byte>>)
      modifies this
      ensures (disk, r) == Compile(code, old(disk), py, Relative(root, source), now)
    {
      var path := Relative(root, source);
      var name := CacheName(path);
      var needsCompile;
      if IsStale(disk, path) {
        needsCompile := true;
      } else {
        match ValidateMagic(disk.cache[name], py) {
          case Ok(valid) => needsCompile := !valid;
          case Err(_) => needsCompile := true;
        }
      }
      if needsCompile {
        var compiled := Fresh(code, disk, py, path);
        if compiled.Err? {
          return Err(compiled.error);
        }
        disk := WriteCache(code, disk, py, path, now);
      }
      r := StripHeader(disk.cache[name].bytes);
    }

    /** Compile all files into the registry, skipping what is not Python and what fails. */
    method CompileBatch(files: seq<string>, registry: ModuleRegistry, clock: seq<nat>) returns (count: nat)
      requires |clock| == |files|
      modifies this, registry
      ensures var (d, results) := Batch(code, old(disk), py, root, files, clock);
              && disk == d
              && LastWins(old(registry.entries), registry.entries, Compiled(root, files, results))
              && count == |Compiled(root, files, results)| && |registry.entries| <= |old(registry.entries)| + count
    {
      count := 0;
      ghost var es: seq<BytecodeEntry> := [];
      ghost var results: Results := [];
      for i := 0 to |files|
        invariant (disk, results) == Batch(code, old(disk), py, root, files[..i], clock[..i])
        invariant |results| == i && es == Compiled(root, files[..i], results)
        invariant LastWins(old(registry.entries), registry.entries, es)
        invariant count == |es| && |registry.entries| <= |old(registry.entries)| + count
      {
        var file := files[i];
        assert files[..i + 1] == files[..i] + [file];
        assert files[..i + 1][..i] == files[..i] && clock[..i + 1][..i] == clock[..i];
        ghost var result: Option<seq<byte>> := None;
        if IsPythonFile(file) {
          var r := CompileFile(file, clock[i]);
          match r {
            case Ok(bytecode) =>
              result := Some(bytecode);
              var entry := EntryFor(root, file, bytecode);
              InsertKeeps(old(registry.entries), registry.entries, es, entry);
              registry.Insert(entry);
              es := es + [entry];
              count := count + 1;
            case Err(_) =>
          }
        }
        results := results + [result];
      }
      assert files[..|files|] == files && clock[..|files|] == clock;
    }
  }

  // --------------------------------------------------------- what a batch comes to

  /** What compiling the file's current source afresh gives; nothing for other files and failures. */
  function FreshResult(code: Compiler, d: Disk, py: Interpreter, root: string, file: string): Option<seq<byte>> {
    var path := Relative(root, file);
    if IsPythonFile(file) && path in d.sources then code(py.magic, path, d.sources[path].content) else None
  }

  lemma CompileKeeps(code: Compiler, d: Disk, py: Interpreter, path: string, now: nat, paths: set<string>)
    requires NoCollisions(paths) && AllSound(code, d, paths) && path in paths
    ensures var d' := Compile(code, d, py, path, now).0; d'.sources == d.sources && AllSound(code, d', paths)
  {
    ApplyKeepsSound(code, World(d, py), paths, CompileOp(path, now));
  }

  /** A missing source never reaches a cache that was written for others. */
  ghost predicate NoneServed(d: Disk, paths: set<string>) {
    forall p :: p in paths && p !in d.sources ==> CacheName(p) !in d.cache
  }

  lemma CompileServesNone(code: Compiler, d: Disk, py: Interpreter, path: string, now: nat, paths: set<string>)
    requires NoCollisions(paths) && NoneServed(d, paths) && path in paths
    ensures NoneServed(Compile(code, d, py, path, now).0, paths)
  {}

  /** The cache can be trusted for these paths. */
  ghost predicate Trusted(code: Compiler, d: Disk, paths: set<string>) {
    AllSound(code, d, paths) && NoneServed(d, paths)
  }

  lemma OneIsFresh(code: Compiler, d: Disk, py: Interpreter, root: string, file: string, now: nat, paths: set<string>)
    requires NoCollisions(paths) && Trusted(code, d, paths) && py.known && Relative(root, file) in paths
    ensures var (d', r) := CompileOne(code, d, py, root, file, now);
            d'.sources == d.sources && Trusted(code, d', paths) && r == FreshResult(code, d, py, root, file)
  {
    var path := Relative(root, file);
    CompileKeeps(code, d, py, path, now, paths);
    CompileServesNone(code, d, py, path, now, paths);
    if path in d.sources {
      SoundCompileIsFresh(code, d, py, path, now);
    } else {
      MissingSourceFailsIff(code, d, py, path, now);
    }
  }

  lemma SameSources(code: Compiler, d: Disk, d': Disk, py: Interpreter, root: string, file: string)
    requires d'.sources == d.sources
    ensures FreshResult(code, d', py, root, file) == FreshResult(code, d, py, root, file)
  {}

  /** Each result is a fresh compile of its file. */
  ghost predicate AllFresh(code: Compiler, d: Disk, py: Interpreter, root: string, files: seq<string>, results: Results) {
    |results| == |files| && forall i :: 0 <= i < |files| ==> results[i] == FreshResult(code, d, py, root, files[i])
  }

  lemma FreshSnoc(code: Compiler, d: Disk, py: Interpreter, root: string, files: seq<string>, results: Results, r: Option<seq<byte>>)
    requires files != [] && AllFresh(code, d, py, root, files[..|files| - 1], results)
    requires r == FreshResult(code, d, py, root, files[|files| - 1])
    ensures AllFresh(code, d, py, root, files, results + [r])
  {
    var k := |files| - 1;
    forall i | 0 <= i < k
      ensures results[i] == FreshResult(code, d, py, root, files[i])
    {
      assert files[..k][i] == files[i];
    }
  }

  /**
   From a cache that can be trusted, if cache names do not collide, each file of a
   batch gets a fresh compile of its own source, and every other file nothing.
   */
  lemma {:induction false} BatchIsFresh(code: Compiler, d: Disk, py: Interpreter, root: string, files: seq<string>,
                                        clock: seq<nat>, paths: set<string>)
    requires |clock| == |files| && NoCollisions(paths) && Trusted(code, d, paths) && py.known
    requires forall f :: f in files ==> Relative(root, f) in paths
    ensures var (d', results) := Batch(code, d, py, root, files, clock);
            d'.sources == d.sources && Trusted(code, d', paths) && AllFresh(code, d, py, root, files, results)
  {
    if files != [] {
      var k := |files| - 1;
      assert files[k] in files;
      BatchIsFresh(code, d, py, root, files[..k], clock[..k], paths);
      var (d1, rs) := Batch(code, d, py, root, files[..k], clock[..k]);
      OneIsFresh(code, d1, py, root, files[k], clock[k], paths);
      SameSources(code, d, d1, py, root, files[k]);
      FreshSnoc(code, d, py, root, files, rs, CompileOne(code, d1, py, root, files[k], clock[k]).1);
    }
  }

  ghost predicate FileIsInit(file: string) { file == "__init__.py" || (exists dir: string :: file == dir + "/" + "__init__.py") }

  lemma InitFiles(file: string)
    ensures IsPackage(file) <==> FileIsInit(file)
  {
    if IsPackage(file) {
      LastPart(file);
    }
    if FileIsInit(file) {
      if dir: string :| file == dir + "/" + "__init__.py" {
        FileNameLast(dir, "__init__.py");
      } else {
        FileNameAlone("__init__.py");
      }
    }
  }

  lemma {:induction false} LastPart(path: string)
    ensures path == FileName(path) || exists dir: string :: path == dir + "/" + FileName(path)
  {
    if path != "" {
      var k := |path| - 1;
      if path[k] == '/' {
        assert path == path[..k] + "/" + "";
      } else {
        LastPart(path[..k]);
        if dir: string :| path[..k] == dir + "/" + FileName(path[..k]) {
          assert path == dir + "/" + FileName(path);
        }
      }
    }
  }

  /** What each file of a batch contributes to the registry. */
  function Attempts(root: string, files: seq<string>, results: Results): (att: seq<Option<BytecodeEntry>>)
    requires |results| == |files|
    ensures |att| == |files|
  {
    seq(|files|, i requires 0 <= i < |files| =>
      if results[i].Some? then Some(EntryFor(root, files[i], results[i].value)) else None)
  }

  function Somes(att: seq<Option<BytecodeEntry>>): seq<BytecodeEntry> {
    if att == [] then []
    else Somes(att[..|att| - 1]) + if att[|att| - 1].Some? then [att[|att| - 1].value] else []
  }

  lemma {:induction false} CompiledIs(root: string, files: seq<string>, results: Results)
    requires |results| == |files|
    ensures Compiled(root, files, results) == Somes(Attempts(root, files, results))
  {
    if files != [] {
      var k := |files| - 1;
      assert Attempts(root, files, results)[..k] == Attempts(root, files[..k], results[..k]);
      CompiledIs(root, files[..k], results[..k]);
    }
  }

  /** The entry at `i` is the last one with this name. */
  ghost predicate IsLast(att: seq<Option<BytecodeEntry>>, name: string, e: BytecodeEntry, i: nat) {
    && i < |att| && att[i] == Some(e) && e.name == name
    && forall j :: i < j < |att| && att[j].Some? ==> att[j].value.name != name
  }

  /** A name holds the last entry with it, or nothing if there is none. */
  ghost predicate Holds(att: seq<Option<BytecodeEntry>>, name: string, held: Option<BytecodeEntry>) {
    match held
    case None => forall i :: 0 <= i < |att| && att[i].Some? ==> att[i].value.name != name
    case Some(e) => exists i: nat :: IsLast(att, name, e, i)
  }

  lemma {:induction false} LastOfSomes(att: seq<Option<BytecodeEntry>>, name: string)
    ensures Holds(att, name, LastNamed(Somes(att), name))
  {
    if att != [] {
      var k := |att| - 1;
      var es := Somes(att[..k]);
      LastOfSomes(att[..k], name);
      if att[k].Some? && att[k].value.name == name {
        assert IsLast(att, name, att[k].value, k);
      } else {
        assert att[k].Some? ==> (es + [att[k].value])[..|es|] == es;
        assert att[k].None? ==> Somes(att) == es;
        var held := LastNamed(es, name);
        assert LastNamed(Somes(att), name) == held;
        if held.Some? {
          var i: nat :| IsLast(att[..k], name, held.value, i);
          assert IsLast(att, name, held.value, i);
        }
      }
    }
  }

  /** After a batch into an empty registry each name holds the last successfully compiled file mapping to it. */
  lemma BatchHolds(root: string, files: seq<string>, results: Results, entries: map<string, BytecodeEntry>, name: string)
    requires |results| == |files| && LastWins(map[], entries, Compiled(root, files, results))
    ensures Holds(Attempts(root, files, results), name, Held(entries, name))
  {
    CompiledIs(root, files, results);
    LastOfSomes(Attempts(root, files, results), name);
    assert Held(map[], name) == None;
  }

  /** An entry has its file's path and bytecode, its dotted name, and is a package exactly for `__init__.py`. */
  lemma EntryFacts(root: string, file: string, bytecode: seq<byte>)
    ensures var e := EntryFor(root, file, bytecode);
            e.sourcePath == file && e.bytecode == bytecode && e.name == ModuleName(root, file) && (e.isPackage <==> FileIsInit(file))
  {
    InitFiles(file);
  }
}
