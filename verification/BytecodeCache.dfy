/** The persistent bytecode cache: it must agree with recompiling. */
module BytecodeCache {
  import opened Wire
  import opened Strings
  import opened Outcomes

  type Magic = m: seq<byte> | |m| == 4 witness [0, 0, 0, 0]

  datatype SourceFile = SourceFile(content: string, mtime: nat)

  /** `origin` is history: the content the file was compiled from. */
  datatype CacheFile = CacheFile(bytes: seq<byte>, mtime: nat, origin: string)

  /** Sources by path relative to the project, cache files by name; times in nanoseconds. */
  datatype Disk = Disk(sources: map<string, SourceFile>, cache: map<string, CacheFile>)

  /** An interpreter's compiler: the bytecode depends on magic number, path and content. */
  type Compiler = (Magic, string, string) -> Option<seq<byte>>

  /** The interpreter in use; its magic number may be impossible to find out. */
  datatype Interpreter = Interpreter(magic: Magic, known: bool)

  const PYC_HEADER_SIZE: nat := 16

  /** The header of PEP 552: magic number, bit field, source mtime in seconds, source size. */
  function Header(magic: Magic, src: SourceFile): (h: seq<byte>)
    ensures |h| == PYC_HEADER_SIZE && h[..4] == magic
  {
    magic + LeBytes(0, 4) + LeBytes(src.mtime / 1_000_000_000, 4) + LeBytes(|Utf8(src.content)|, 4)
  }

  /** The fields after the magic number: no flags, the source's time in seconds, its size in bytes. */
  lemma HeaderFields(magic: Magic, src: SourceFile)
    requires src.mtime / 1_000_000_000 < 0x1_0000_0000 && |Utf8(src.content)| < 0x1_0000_0000
    ensures var h := Header(magic, src);
            && LeValue(h[4..8]) == 0 && LeValue(h[8..12]) == src.mtime / 1_000_000_000
            && LeValue(h[12..16]) == |Utf8(src.content)|
  {
    Widths();
    var secs, size := src.mtime / 1_000_000_000, |Utf8(src.content)|;
    LeRoundTrip(0, 4);
    LeRoundTrip(secs, 4);
    LeRoundTrip(size, 4);
    QuartersOf(magic, LeBytes(0, 4), LeBytes(secs, 4), LeBytes(size, 4));
  }

  lemma QuartersOf(a: seq<byte>, b: seq<byte>, c: seq<byte>, d: seq<byte>)
    requires |a| == 4 && |b| == 4 && |c| == 4 && |d| == 4
    ensures var h := a + b + c + d; h[4..8] == b && h[8..12] == c && h[12..16] == d
  {}

  function Pyc(magic: Magic, src: SourceFile, code: seq<byte>): (f: seq<byte>)
    ensures |f| >= PYC_HEADER_SIZE && f[PYC_HEADER_SIZE..] == code && f[..4] == magic
  {
    Header(magic, src) + code
  }

  // ---------------------------------------------------------------- cache names

  function CacheName(path: string): string { ReplaceChar(path, '/', '_') + ".pyc" }

  /** Two paths share a cache file exactly if they differ only in slashes against underscores. */
  lemma CacheNameCollides(p: string, q: string)
    ensures CacheName(p) == CacheName(q) <==>
            |p| == |q| && forall i :: 0 <= i < |p| ==> p[i] == q[i] || (p[i] in "/_" && q[i] in "/_")
  {
    var a, b := ReplaceChar(p, '/', '_'), ReplaceChar(q, '/', '_');
    if CacheName(p) == CacheName(q) {
      assert |a| == |b|;
      assert CacheName(p)[..|a|] == a && CacheName(q)[..|b|] == b;
      forall i | 0 <= i < |p|
        ensures p[i] == q[i] || (p[i] in "/_" && q[i] in "/_")
      {
        assert a[i] == b[i];
      }
    }
    if |p| == |q| && forall i :: 0 <= i < |p| ==> p[i] == q[i] || (p[i] in "/_" && q[i] in "/_") {
      assert a == b;
    }
  }

  // ----------------------------------------------------------------- one compile

  /** Stale: no cache file, or the source is strictly newer; a missing source counts as oldest. */
  predicate IsStale(d: Disk, path: string) {
    var name := CacheName(path);
    name !in d.cache || (if path in d.sources then d.sources[path].mtime else 0) > d.cache[name].mtime
  }

  /** A cache file too short to hold a magic number cannot be validated; any other passes if the right number is unknown. */
  function ValidateMagic(file: CacheFile, py: Interpreter): Outcome<bool> {
    if |file.bytes| < 4 then Err("failed to fill whole buffer") else Ok(py.known ==> file.bytes[..4] == py.magic)
  }

  predicate NeedsCompile(d: Disk, py: Interpreter, path: string) {
    IsStale(d, path) || ValidateMagic(d.cache[CacheName(path)], py) != Ok(true)
  }

  /** What compiling the current source afresh gives. */
  function Fresh(code: Compiler, d: Disk, py: Interpreter, path: string): Outcome<seq<byte>> {
    if path !in d.sources then Err("No such file")
    else match code(py.magic, path, d.sources[path].content)
      case Some(bytes) => Ok(bytes)
      case None => Err("Compilation failed")
  }

  function WriteCache(code: Compiler, d: Disk, py: Interpreter, path: string, now: nat): Disk
    requires Fresh(code, d, py, path).Ok?
  {
    var src := d.sources[path];
    d.(cache := d.cache[CacheName(path) := CacheFile(Pyc(py.magic, src, Fresh(code, d, py, path).value), now, src.content)])
  }

  function StripHeader(bytes: seq<byte>): Outcome<seq<byte>> {
    if |bytes| < PYC_HEADER_SIZE then Err("Invalid .pyc file (too short)") else Ok(bytes[PYC_HEADER_SIZE..])
  }

  /** The disk and the result after `compile`. */
  function Compile(code: Compiler, d: Disk, py: Interpreter, path: string, now: nat): (Disk, Outcome<seq<byte>>) {
    if NeedsCompile(d, py, path) then
      var result := Fresh(code, d, py, path);
      if result.Err? then (d, result)
      else
        var d' := WriteCache(code, d, py, path, now);
        (d', StripHeader(d'.cache[CacheName(path)].bytes))
    else (d, StripHeader(d.cache[CacheName(path)].bytes))
  }

  // --------------------------------------------------------------------- whole runs

  datatype Op =
    | Edit(path: string, content: string, mtime: nat)
    | Remove(path: string)
    | Upgrade(py: Interpreter)
    | CompileOp(path: string, now: nat)

  datatype World = World(disk: Disk, py: Interpreter)

  function Apply(code: Compiler, w: World, op: Op): World {
    match op
    case Edit(path, content, mtime) =>
      w.(disk := w.disk.(sources := w.disk.sources[path := SourceFile(content, mtime)]))
    case Remove(path) => w.(disk := w.disk.(sources := w.disk.sources - {path}))
    case Upgrade(py) => w.(py := py)
    case CompileOp(path, now) => w.(disk := Compile(code, w.disk, w.py, path, now).0)
  }

  function Run(code: Compiler, w: World, ops: seq<Op>): World {
    if ops == [] then w else Apply(code, Run(code, w, ops[..|ops| - 1]), ops[|ops| - 1])
  }

  /** An edit of a compiled path is strictly later than its cache file. */
  ghost predicate Later(w: World, op: Op) {
    op.Edit? && CacheName(op.path) in w.disk.cache ==> op.mtime > w.disk.cache[CacheName(op.path)].mtime
  }

  ghost predicate Disciplined(code: Compiler, w: World, paths: set<string>, ops: seq<Op>) {
    forall k :: 0 <= k < |ops| ==>
      && (ops[k].CompileOp? ==> ops[k].path in paths)
      && (ops[k].Edit? && ops[k].path in paths ==> Later(Run(code, w, ops[..k]), ops[k]))
  }

  ghost predicate NoCollisions(paths: set<string>) {
    forall p, q :: p in paths && q in paths && CacheName(p) == CacheName(q) ==> p == q
  }

  /** A cache file holds the compilation of its origin, which is current unless the source is newer. */
  ghost predicate Sound(code: Compiler, d: Disk, p: string) {
    CacheName(p) in d.cache ==>
      var f := d.cache[CacheName(p)];
      && |f.bytes| >= PYC_HEADER_SIZE
      && code(f.bytes[..4], p, f.origin) == Some(f.bytes[PYC_HEADER_SIZE..])
      && (p in d.sources ==> d.sources[p].mtime > f.mtime || d.sources[p].content == f.origin)
  }

  ghost predicate AllSound(code: Compiler, d: Disk, paths: set<string>) {
    forall p :: p in paths ==> Sound(code, d, p)
  }

  lemma ApplyKeepsSound(code: Compiler, w: World, paths: set<string>, op: Op)
    requires NoCollisions(paths) && AllSound(code, w.disk, paths)
    requires op.CompileOp? ==> op.path in paths
    requires op.Edit? && op.path in paths ==> Later(w, op)
    ensures AllSound(code, Apply(code, w, op).disk, paths)
  {}

  lemma {:induction false} RunKeepsSound(code: Compiler, py: Interpreter, sources: map<string, SourceFile>,
                                         paths: set<string>, ops: seq<Op>)
    requires NoCollisions(paths) && Disciplined(code, World(Disk(sources, map[]), py), paths, ops)
    ensures AllSound(code, Run(code, World(Disk(sources, map[]), py), ops).disk, paths)
  {
    var w0 := World(Disk(sources, map[]), py);
    if ops != [] {
      var k := |ops| - 1;
      assert forall i :: 0 <= i < k ==> ops[..k][..i] == ops[..i];
      RunKeepsSound(code, py, sources, paths, ops[..k]);
      ApplyKeepsSound(code, Run(code, w0, ops[..k]), paths, ops[k]);
    }
  }

  /** The interpreter of the last successful compile into a cache file, if there was one. */
  function LastWriter(code: Compiler, w: World, ops: seq<Op>, name: string): Option<Magic> {
    if ops == [] then None
    else
      var k := |ops| - 1;
      var before := Run(code, w, ops[..k]);
      if Writes(code, before, ops[k], name) then Some(before.py.magic) else LastWriter(code, w, ops[..k], name)
  }

  /** The step compiles into this cache file. */
  predicate Writes(code: Compiler, w: World, op: Op, name: string) {
    && op.CompileOp? && CacheName(op.path) == name
    && NeedsCompile(w.disk, w.py, op.path) && Fresh(code, w.disk, w.py, op.path).Ok?
  }

  lemma ApplyWrites(code: Compiler, w: World, op: Op, name: string)
    ensures var d, d' := w.disk, Apply(code, w, op).disk;
            if Writes(code, w, op, name) then
              name in d'.cache && |d'.cache[name].bytes| >= PYC_HEADER_SIZE && d'.cache[name].bytes[..4] == w.py.magic
            else (name in d'.cache <==> name in d.cache) && (name in d.cache ==> d'.cache[name] == d.cache[name])
  {}

  /** In every run from an empty cache a file is there exactly if it was written, with its writer's magic number. */
  lemma {:induction false} RunWrites(code: Compiler, w: World, ops: seq<Op>, name: string)
    requires w.disk.cache == map[]
    ensures var d, last := Run(code, w, ops).disk, LastWriter(code, w, ops, name);
            && (name in d.cache <==> last.Some?)
            && (name in d.cache ==> |d.cache[name].bytes| >= PYC_HEADER_SIZE && d.cache[name].bytes[..4] == last.value)
  {
    if ops != [] {
      var k := |ops| - 1;
      RunWrites(code, w, ops[..k], name);
      ApplyWrites(code, Run(code, w, ops[..k]), ops[k], name);
    }
  }

  /** A cache file of another interpreter is told apart, or there is none. */
  predicate Recognised(py: Interpreter, last: Option<Magic>) { py.known || last.None? || last.value == py.magic }

  lemma SoundCompileIsFresh(code: Compiler, d: Disk, py: Interpreter, p: string, now: nat)
    requires Sound(code, d, p) && p in d.sources
    requires py.known || (CacheName(p) in d.cache ==> d.cache[CacheName(p)].bytes[..4] == py.magic)
    ensures Compile(code, d, py, p, now).1 == Fresh(code, d, py, p)
  {}

  /**
   In every run of edits, removals, interpreter changes and compiles, compiling
   an existing source gives what a fresh compile of its current contents gives.
   */
  lemma CacheAgreesWithCompiler(code: Compiler, py: Interpreter, sources: map<string, SourceFile>,
                                paths: set<string>, ops: seq<Op>, p: string, now: nat)
    requires NoCollisions(paths) && Disciplined(code, World(Disk(sources, map[]), py), paths, ops)
    requires p in paths && p in Run(code, World(Disk(sources, map[]), py), ops).disk.sources
    requires var w0 := World(Disk(sources, map[]), py);
             Recognised(Run(code, w0, ops).py, LastWriter(code, w0, ops, CacheName(p)))
    ensures var w := Run(code, World(Disk(sources, map[]), py), ops);
            Compile(code, w.disk, w.py, p, now).1 == Fresh(code, w.disk, w.py, p)
  {
    RunKeepsSound(code, py, sources, paths, ops);
    RunWrites(code, World(Disk(sources, map[]), py), ops, CacheName(p));
    var w := Run(code, World(Disk(sources, map[]), py), ops);
    SoundCompileIsFresh(code, w.disk, w.py, p, now);
  }

  // -------------------------------------------------------- why the conditions matter

  /** Colliding names: the second file is served the first one's bytecode. */
  lemma CollisionServesOther(code: Compiler, py: Interpreter, p: string, q: string, a: SourceFile, b: SourceFile, now: nat)
    requires p != q && CacheName(p) == CacheName(q) && b.mtime <= now
    requires code(py.magic, p, a.content).Some?
    ensures var d0 := Disk(map[p := a, q := b], map[]);
            var d1 := Compile(code, d0, py, p, now).0;
            Compile(code, d1, py, q, now).1 == Ok(code(py.magic, p, a.content).value)
  {}

  /** An edit that is not strictly newer than the cache file is not noticed. */
  lemma SameTimeEditMissed(code: Compiler, py: Interpreter, p: string, a: SourceFile, b: SourceFile, now: nat)
    requires b.mtime <= now && code(py.magic, p, a.content).Some?
    ensures var d1 := Compile(code, Disk(map[p := a], map[]), py, p, now).0;
            var d2 := d1.(sources := d1.sources[p := b]);
            Compile(code, d2, py, p, now).1 == Ok(code(py.magic, p, a.content).value)
  {}

  /** Compile, edit, compile again: is the edit seen? */
  ghost predicate EditSeen(code: Compiler, py: Interpreter, p: string, a: SourceFile, b: SourceFile, now: nat) {
    var d1 := Compile(code, Disk(map[p := a], map[]), py, p, now).0;
    var d2 := d1.(sources := d1.sources[p := b]);
    Compile(code, d2, py, p, now).1 == Fresh(code, d2, py, p)
  }

  /** Compile one file, then another: does the second get its own bytecode? */
  ghost predicate OwnBytecode(code: Compiler, py: Interpreter, p: string, q: string, a: SourceFile, b: SourceFile, now: nat) {
    var d1 := Compile(code, Disk(map[p := a, q := b], map[]), py, p, now).0;
    Compile(code, d1, py, q, now).1 == Fresh(code, d1, py, q)
  }

  /** A compiler that keeps the whole source, so different contents give different bytecode. */
  function Verbatim(magic: Magic, path: string, content: string): Option<seq<byte>> { Some(Utf8(content)) }

  lemma Utf8Injective(s: string, t: string)
    requires Utf8(s) == Utf8(t)
    ensures s == t
  {
    Utf8RoundTrip(s);
    Utf8RoundTrip(t);
  }

  /** An edit is seen, whatever the compiler, exactly if it is strictly newer or changes nothing. */
  lemma EditSeenIff(py: Interpreter, p: string, a: SourceFile, b: SourceFile, now: nat)
    ensures (forall code :: EditSeen(code, py, p, a, b, now)) <==> b.mtime > now || b.content == a.content
  {
    if b.mtime <= now && b.content != a.content {
      SameTimeEditMissed(Verbatim, py, p, a, b, now);
      if Utf8(a.content) == Utf8(b.content) {
        Utf8Injective(a.content, b.content);
      }
      assert !EditSeen(Verbatim, py, p, a, b, now);
    } else {
      forall code: Compiler
        ensures EditSeen(code, py, p, a, b, now)
      {
        EditSeenWhen(code, py, p, a, b, now);
      }
    }
  }

  lemma EditSeenWhen(code: Compiler, py: Interpreter, p: string, a: SourceFile, b: SourceFile, now: nat)
    requires b.mtime > now || b.content == a.content
    ensures EditSeen(code, py, p, a, b, now)
  {}

  /** Two files get their own bytecode, whatever they contain, exactly if their cache names differ. */
  lemma OwnBytecodeIff(py: Interpreter, p: string, q: string, now: nat)
    requires p != q
    ensures (forall code, a, b :: OwnBytecode(code, py, p, q, a, b, now)) <==> CacheName(p) != CacheName(q)
  {
    if CacheName(p) == CacheName(q) {
      var a, b := SourceFile("a", 0), SourceFile("b", 0);
      CollisionServesOther(Verbatim, py, p, q, a, b, now);
      if Utf8(a.content) == Utf8(b.content) {
        Utf8Injective(a.content, b.content);
      }
      assert !OwnBytecode(Verbatim, py, p, q, a, b, now);
    } else {
      forall code: Compiler, a: SourceFile, b: SourceFile
        ensures OwnBytecode(code, py, p, q, a, b, now)
      {
        OwnBytecodeWhen(code, py, p, q, a, b, now);
      }
    }
  }

  lemma OwnBytecodeWhen(code: Compiler, py: Interpreter, p: string, q: string, a: SourceFile, b: SourceFile, now: nat)
    requires CacheName(p) != CacheName(q)
    ensures OwnBytecode(code, py, p, q, a, b, now)
  {}

  /** Compile with one interpreter, then with another: does the second get its own bytecode? */
  ghost predicate UpgradeSeen(code: Compiler, py: Interpreter, py': Interpreter, p: string, a: SourceFile, now: nat) {
    var d1 := Compile(code, Disk(map[p := a], map[]), py, p, now).0;
    Compile(code, d1, py', p, now).1 == Fresh(code, d1, py', p)
  }

  /** A compiler whose bytecode is its own magic number. */
  function Signing(magic: Magic, path: string, content: string): Option<seq<byte>> { Some(magic) }

  lemma UpgradeMissed(py: Interpreter, py': Interpreter, p: string, a: SourceFile, now: nat)
    requires !py'.known && py'.magic != py.magic && a.mtime <= now
    ensures !UpgradeSeen(Signing, py, py', p, a, now)
  {}

  lemma UpgradeSeenWhen(code: Compiler, py: Interpreter, py': Interpreter, p: string, a: SourceFile, now: nat)
    requires py'.known || py'.magic == py.magic || a.mtime > now
    ensures UpgradeSeen(code, py, py', p, a, now)
  {}

  /**
   After a change of interpreter a file gets bytecode of the new one, whatever
   the compiler, exactly if the new magic number is known or the same, or the
   source is newer than its cache file.
   */
  lemma UpgradeSeenIff(py: Interpreter, py': Interpreter, p: string, a: SourceFile, now: nat)
    ensures (forall code :: UpgradeSeen(code, py, py', p, a, now)) <==>
            py'.known || py'.magic == py.magic || a.mtime > now
  {
    if py'.known || py'.magic == py.magic || a.mtime > now {
      forall code: Compiler
        ensures UpgradeSeen(code, py, py', p, a, now)
      {
        UpgradeSeenWhen(code, py, py', p, a, now);
      }
    } else {
      UpgradeMissed(py, py', p, a, now);
    }
  }

  // ---------------------------------------------------------------- missing sources

  /** Nothing to serve: no cache file, a truncated one, or one known to be of another interpreter. */
  predicate NothingToServe(d: Disk, py: Interpreter, p: string) {
    || CacheName(p) !in d.cache
    || |d.cache[CacheName(p)].bytes| < PYC_HEADER_SIZE
    || (py.known && d.cache[CacheName(p)].bytes[..4] != py.magic)
  }

  /** On any disk, compiling a missing source fails, as it should, exactly if there is nothing to serve. */
  lemma MissingSourceFailsIff(code: Compiler, d: Disk, py: Interpreter, p: string, now: nat)
    requires p !in d.sources
    ensures Fresh(code, d, py, p).Err?
    ensures Compile(code, d, py, p, now).1.Err? <==> NothingToServe(d, py, p)
  {}

  /**
   After any run that ends by removing a source, compiling it fails exactly if
   nothing was compiled into its cache file, or last by an interpreter known to
   be another one.
   */
  lemma RemovedSourceFailsIff(code: Compiler, w: World, ops: seq<Op>, p: string, now: nat)
    requires w.disk.cache == map[]
    ensures var w' := Run(code, w, ops + [Remove(p)]);
            && Fresh(code, w'.disk, w'.py, p).Err?
            && (Compile(code, w'.disk, w'.py, p, now).1.Err? <==>
                  var last := LastWriter(code, w, ops, CacheName(p)); last.None? || (w'.py.known && last.value != w'.py.magic))
  {
    RunWrites(code, w, ops, CacheName(p));
    assert (ops + [Remove(p)])[..|ops|] == ops;
    var w' := Run(code, w, ops + [Remove(p)]);
    MissingSourceFailsIff(code, w'.disk, w'.py, p, now);
  }

  /** A removed source is still served from the cache, while a fresh compile would fail. */
  lemma RemovedSourceServed(code: Compiler, d: Disk, py: Interpreter, p: string, now: nat)
    requires Sound(code, d, p) && p !in d.sources && CacheName(p) in d.cache && d.cache[CacheName(p)].bytes[..4] == py.magic
    ensures Compile(code, d, py, p, now).1 == Ok(code(py.magic, p, d.cache[CacheName(p)].origin).value)
    ensures Fresh(code, d, py, p).Err?
  {}
}
