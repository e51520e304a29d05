/** Which mappings of a process are put back by a reset, told from the text of its maps. */
module ResetKinds {
  import opened Wire
  import opened Strings
  import opened Snapshot
  import opened MapsParser
  import opened LazyReset
  import opened WorkerReset
  import opened ResetDriver

  // --------------------------------------------------------------------- kinds

  ghost predicate IsHeap(m: Mapping) { 'w' in m.perms && m.words == ["[heap]"] }

  /** Private writable memory without a name. */
  ghost predicate IsAnonymous(m: Mapping) { 'w' in m.perms && 'p' in m.perms && m.words == [] }

  /** Writable data of the Python library: a path that mentions it. */
  ghost predicate IsPython(m: Mapping) {
    && 'w' in m.perms && '[' !in Join(m.words, ' ')
    && exists i: nat :: Occurs(Join(m.words, ' '), "libpython", i)
  }

  ghost predicate IsTheStack(m: Mapping) { 'w' in m.perms && m.words == ["[stack]"] }

  /** Not writable, shared, of the kernel's own, or a file other than the Python library. */
  ghost predicate IsForeign(m: Mapping) {
    || 'w' !in m.perms || m.words == ["[vdso]"] || m.words == ["[vsyscall]"]
    || (m.words == [] && 'p' !in m.perms)
    || (m.words != [] && '[' !in Join(m.words, ' ') && !Contains(Join(m.words, ' '), "libpython"))
  }

  ghost predicate IsWorking(m: Mapping) { IsHeap(m) || IsAnonymous(m) || IsPython(m) }

  lemma NoBracket(s: string, pat: string)
    requires '[' !in s && pat != "" && pat[0] == '['
    ensures !Contains(s, pat)
  {
    forall i: nat
      ensures !Occurs(s, pat, i)
    {
      if i + |pat| <= |s| {
        assert s[i..i + |pat|][0] == s[i];
      }
    }
  }

  lemma TooShort(s: string, pat: string)
    requires |s| < |pat|
    ensures !Contains(s, pat)
  {}

  lemma ContainsSelf(s: string)
    ensures Contains(s, s)
  {
    assert s[0..0 + |s|] == s;
    assert Occurs(s, s, 0);
  }

  lemma SameLength(s: string, pat: string)
    requires |s| == |pat| && s != pat
    ensures !Contains(s, pat)
  {
    forall i: nat
      ensures !Occurs(s, pat, i)
    {
      if i == 0 {
        assert s[i..i + |pat|] == s;
      }
    }
  }

  lemma HeapKind(r: MemoryRegion)
    requires 'w' in r.perms && r.name == "[heap]"
    ensures r.ShouldSnapshot() && !r.IsStack()
  {
    ContainsSelf("[heap]");
    TooShort("[heap]", "[stack]");
    TooShort("[heap]", "[vsyscall]");
    assert "[heap]"[1] != "[vdso]"[1];
    SameLength("[heap]", "[vdso]");
  }

  lemma StackKind(r: MemoryRegion)
    requires 'w' in r.perms && r.name == "[stack]"
    ensures r.ShouldSnapshot() && r.IsStack()
  {
    var s := "[stack]";
    ContainsSelf(s);
    TooShort(s, "[vsyscall]");
    forall i: nat
      ensures !Occurs(s, "[vdso]", i)
    {
      if i <= 1 {
        assert s[i..i + 6][0] == s[i] && s[i..i + 6][1] == s[i + 1];
      }
    }
  }

  lemma UnnamedKind(r: MemoryRegion)
    requires 'w' in r.perms && 'p' in r.perms && r.name == ""
    ensures r.ShouldSnapshot() && !r.IsStack()
  {
    TooShort("", "[vdso]");
    TooShort("", "[vsyscall]");
    TooShort("", "[stack]");
  }

  lemma PythonKind(r: MemoryRegion, i: nat)
    requires 'w' in r.perms && '[' !in r.name && Occurs(r.name, "libpython", i)
    ensures r.ShouldSnapshot() && !r.IsStack()
  {
    NoBracket(r.name, "[vdso]");
    NoBracket(r.name, "[vsyscall]");
    NoBracket(r.name, "[stack]");
  }

  lemma ForeignKind(r: MemoryRegion)
    requires 'w' !in r.perms || r.name == "[vdso]" || r.name == "[vsyscall]"
    ensures !r.ShouldSnapshot()
  {
    ContainsSelf("[vdso]");
    ContainsSelf("[vsyscall]");
  }

  lemma OtherFileKind(r: MemoryRegion)
    requires '[' !in r.name && !Contains(r.name, "libpython") && (r.name == "" ==> 'p' !in r.perms)
    ensures !r.ShouldSnapshot()
  {
    NoBracket(r.name, "[heap]");
    NoBracket(r.name, "[stack]");
  }

  lemma Kinds(m: Mapping)
    requires m.Valid()
    ensures IsWorking(m) ==> m.Region().ShouldSnapshot() && !m.Region().IsStack()
    ensures IsTheStack(m) ==> m.Region().ShouldSnapshot() && m.Region().IsStack()
    ensures IsForeign(m) ==> !m.Region().ShouldSnapshot()
  {
    var r := m.Region();
    if IsHeap(m) {
      HeapKind(r);
    }
    if IsAnonymous(m) {
      UnnamedKind(r);
    }
    if IsPython(m) {
      var i: nat :| Occurs(Join(m.words, ' '), "libpython", i);
      PythonKind(r, i);
    }
    if IsTheStack(m) {
      StackKind(r);
    }
    if 'w' !in m.perms || m.words == ["[vdso]"] || m.words == ["[vsyscall]"] {
      ForeignKind(r);
    } else if IsForeign(m) {
      TooShort("", "libpython");
      assert m.words != [] ==> m.words[0] in m.words && r.name != "";
      OtherFileKind(r);
    }
  }

  // ------------------------------------------------------------ from text to ranges

  /** What a process reads from the text of its maps. */
  function Read(ms: seq<Mapping>): seq<MemoryRegion> { ParseLines(Lines(Render(ms))) }

  ghost predicate AllValid(ms: seq<Mapping>) { forall m :: m in ms ==> m.Valid() }

  ghost predicate In(m: Mapping, a: nat) { m.start <= a < m.end }

  /** The kernel never maps an address twice. */
  ghost predicate Disjoint(ms: seq<Mapping>) {
    forall i, j, a :: 0 <= i < j < |ms| && In(ms[i], a) ==> !In(ms[j], a)
  }

  lemma {:induction false} RegionOrigin(ms: seq<Mapping>, r: MemoryRegion)
    requires AllValid(ms)
    ensures r in RegionsOf(ms) <==> exists m :: m in ms && m.start <= m.end && r == m.Region()
  {
    if ms != [] {
      var k := |ms| - 1;
      RegionOrigin(ms[..k], r);
      assert ms[k] in ms && forall m :: m in ms <==> m in ms[..k] || m == ms[k];
    }
  }

  lemma ReadOrigin(ms: seq<Mapping>, r: MemoryRegion)
    requires AllValid(ms)
    ensures r in Read(ms) <==> exists m :: m in ms && m.start <= m.end && r == m.Region()
  {
    ParseInvertsRender(ms);
    RegionOrigin(ms, r);
  }

  /**
   Which ranges a worker caches, from the text of its maps: heap, unnamed private
   memory and the Python library's data are reset; the stack is captured, but never
   reset; what is not writable, shared
   memory, the kernel's own mappings and other files are neither.
   */
  lemma RangesOfText(ms: seq<Mapping>, m: Mapping)
    requires AllValid(ms) && m in ms
    ensures IsWorking(m) ==> m.Region() in Snapshotted(Read(ms)) && Range(m.start, m.end - m.start) in ResetRanges(Read(ms))
    ensures IsTheStack(m) ==> m.Region() in Snapshotted(Read(ms))
    ensures IsForeign(m) ==> m.Region() !in Snapshotted(Read(ms))
  {
    Kinds(m);
    ReadOrigin(ms, m.Region());
  }

  lemma WorkingIsReset(ms: seq<Mapping>, m: Mapping, a: nat)
    requires AllValid(ms) && m in ms && In(m, a) && IsWorking(m)
    ensures InReset(Read(ms), a)
  {
    Kinds(m);
    ReadOrigin(ms, m.Region());
    assert m.Region().Has(a);
  }

  /** No address of the stack or of a foreign mapping is reset. */
  lemma OthersAreKept(ms: seq<Mapping>, m: Mapping, a: nat)
    requires AllValid(ms) && Disjoint(ms) && m in ms && In(m, a) && (IsTheStack(m) || IsForeign(m))
    ensures !InReset(Read(ms), a)
  {
    forall r | r in Read(ms) && r.Has(a)
      ensures !(r.ShouldSnapshot() && !r.IsStack())
    {
      ReadOrigin(ms, r);
      var m' :| m' in ms && m'.start <= m'.end && r == m'.Region();
      SameMapping(ms, m, m', a);
      Kinds(m);
    }
  }

  lemma SameMapping(ms: seq<Mapping>, m: Mapping, m': Mapping, a: nat)
    requires Disjoint(ms) && m in ms && m' in ms && In(m, a) && In(m', a)
    ensures m == m'
  {
    var i :| 0 <= i < |ms| && ms[i] == m;
    var j :| 0 <= j < |ms| && ms[j] == m';
    assert i == j;
  }

  // ------------------------------------------------------------------ what it means

  /** The value an address has if nothing but the stores touched it. */
  function LastStored(image: Image, ops: seq<Op>, a: nat): byte
    requires a in image
  {
    if ops == [] then image[a]
    else
      var op := ops[|ops| - 1];
      if op.Store? && op.addr == a then op.value else LastStored(image, ops[..|ops| - 1], a)
  }

  lemma {:induction false} KeptIsStored(u: Setup, ops: seq<Op>, a: nat)
    requires a in u.image && forall ok :: !u.Dropped(ok, a)
    ensures EagerRun(u, u.image, ops)[a] == LastStored(u.image, ops, a)
  {
    if ops != [] {
      KeptIsStored(u, ops[..|ops| - 1], a);
    }
  }

  lemma NeverDropped(regions: seq<MemoryRegion>, u: Setup, a: nat)
    requires u.reset == ResetRanges(regions) && !InReset(regions, a)
    ensures forall ok :: !u.Dropped(ok, a)
  {
    DroppedIff(regions, a);
    var all := AllOk(|u.reset|);
    forall ok
      ensures !u.Dropped(ok, a)
    {
      forall i | 0 <= i < |u.reset|
        ensures !u.reset[i].Has(a)
      {
        assert all[i];
      }
    }
  }

  /**
   After any history of stores, faults and resets, a self-reset gives every address
   of the heap, of unnamed memory and of the Python library the byte it had at the
   freeze point, and leaves every address of the stack with what was last stored there.
   */
  lemma HeapBackStackKept(u: Setup, ms: seq<Mapping>, pages: Resident, ops: seq<Op>, m: Mapping, a: nat)
    requires AllValid(ms) && Disjoint(ms) && m in ms && In(m, a) && a in u.image
    requires SameMaps(u, Read(ms)) && u.Valid() && Sized(pages) && Agree(u, pages, u.image)
    ensures var after := LazyStep(u, LazyRun(u, pages, ops), Reset(AllOk(|u.reset|)));
            && (IsWorking(m) ==> Observe(u, after, a) == u.image[a])
            && (IsTheStack(m) || IsForeign(m) ==> Observe(u, after, a) == LastStored(u.image, ops, a))
  {
    SelfResetRestores(u, Read(ms), pages, ops, a);
    if IsWorking(m) {
      WorkingIsReset(ms, m, a);
    }
    if IsTheStack(m) || IsForeign(m) {
      OthersAreKept(ms, m, a);
      NeverDropped(Read(ms), u, a);
      KeptIsStored(u, ops, a);
    }
  }

  /** The same at the end of a whole session of tests. */
  lemma SessionIsolated(u: Setup, ms: seq<Mapping>, pages: Resident, cycles: seq<Cycle>, m: Mapping, a: nat)
    requires AllValid(ms) && Disjoint(ms) && m in ms && In(m, a) && a in u.image
    requires u.Valid() && Sized(pages) && Isolated(u, pages, Read(ms), cycles)
    ensures IsWorking(m) && cycles != [] ==> Observe(u, pages, a) == u.image[a]
    ensures IsTheStack(m) || IsForeign(m) ==> Observe(u, pages, a) == AllWritten(u.image, cycles)[a]
  {
    if IsWorking(m) {
      WorkingIsReset(ms, m, a);
    }
    if IsTheStack(m) || IsForeign(m) {
      OthersAreKept(ms, m, a);
    }
  }
}
