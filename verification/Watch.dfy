/** The watch loop: debounced change events over an unbounded queue, one session per relevant burst. */
module Watch {
  import opened Wire
  import opened Strings
  import opened ModuleNames

  /** What a receive on the channel sees next: an event, 100 ms without one, or the closed channel. */
  datatype Delivery = Event(paths: seq<string>) | Silence | Closed

  datatype Entry = Dequeued(paths: seq<string>) | SessionStart

  type Burst = seq<seq<string>>

  // ------------------------------------------------------------------- filters

  predicate IsIgnored(path: string) {
    || Contains(path, "__pycache__") || Contains(path, ".pytest_cache") || Contains(path, ".mypy_cache")
    || Contains(path, ".git") || Contains(path, ".venv") || Contains(path, "/venv/")
    || Contains(path, "/env/") || Contains(path, "/node_modules/")
  }

  predicate IsRelevant(path: string) { IsPythonFile(path) && !IsIgnored(path) }

  /** `collect_python_paths`. */
  function PythonPaths(paths: seq<string>): seq<string> {
    if paths == [] then []
    else (if IsRelevant(paths[0]) then [paths[0]] else []) + PythonPaths(paths[1..])
  }

  predicate HasRelevant(paths: seq<string>) { PythonPaths(paths) != [] }

  lemma {:induction false} HasRelevantIff(paths: seq<string>)
    ensures HasRelevant(paths) <==> exists p :: p in paths && IsRelevant(p)
  {
    if paths != [] {
      assert paths[0] in paths;
      HasRelevantIff(paths[1..]);
    }
  }

  lemma Mentions(before: string, pat: string, after: string)
    ensures Contains(before + pat + after, pat)
  {
    assert (before + pat + after)[|before|..|before| + |pat|] == pat;
    assert Occurs(before + pat + after, pat, |before|);
  }

  const PLACES: seq<string> :=
    ["__pycache__", ".pytest_cache", ".mypy_cache", ".git", ".venv", "/venv/", "/env/", "/node_modules/"]

  /** Anything in a cache, repository, environment or package directory is ignored. */
  lemma IgnoredPlaces(before: string, after: string)
    ensures forall place :: place in PLACES ==> !IsRelevant(before + place + after)
  {
    forall place | place in PLACES
      ensures IsIgnored(before + place + after)
    {
      Mentions(before, place, after);
    }
  }

  lemma NotMentioned(s: string, pat: string, k: nat)
    requires k < |pat| && pat[k] !in s
    ensures !Contains(s, pat)
  {
    forall i: nat
      ensures !Occurs(s, pat, i)
    {
      if i + |pat| <= |s| {
        assert s[i..i + |pat|][k] == s[i + k];
      }
    }
  }

  lemma DotPy(name: string, pat: string)
    requires '.' !in name && |pat| >= 2 && pat[0] == '.' && pat[1] != 'p'
    ensures !Contains(name + ".py", pat)
  {
    var s := name + ".py";
    forall i: nat
      ensures !Occurs(s, pat, i)
    {
      if i + |pat| <= |s| {
        assert s[i..i + |pat|][0] == s[i] && s[i..i + |pat|][1] == s[i + 1];
        assert i < |name| ==> s[i] in name;
      }
    }
  }

  /** A Python file with a plain name is relevant. */
  lemma PlainFileRelevant(name: string)
    requires name != "" && '.' !in name && '/' !in name && '_' !in name
    ensures IsRelevant(name + ".py")
  {
    var s := name + ".py";
    assert name[|name| - 1] in name;
    ExtensionOfPy(name);
    NotMentioned(s, "__pycache__", 0);
    NotMentioned(s, ".pytest_cache", 7);
    DotPy(name, ".mypy_cache");
    DotPy(name, ".git");
    DotPy(name, ".venv");
    NotMentioned(s, "/venv/", 0);
    NotMentioned(s, "/env/", 0);
    NotMentioned(s, "/node_modules/", 0);
  }

  /** The paths a burst accumulates. */
  function ChangedPaths(burst: Burst): seq<string> {
    if burst == [] then [] else ChangedPaths(burst[..|burst| - 1]) + PythonPaths(burst[|burst| - 1])
  }

  predicate Triggers(burst: Burst) { ChangedPaths(burst) != [] }

  lemma {:induction false} TriggersIff(burst: Burst)
    ensures Triggers(burst) <==> exists e :: e in burst && HasRelevant(e)
  {
    if burst != [] {
      var k := |burst| - 1;
      assert burst[k] in burst;
      TriggersIff(burst[..k]);
      assert forall e :: e in burst <==> e in burst[..k] || e == burst[k];
    }
  }

  // -------------------------------------------------------------------- bursts

  /** The closed bursts of a delivery sequence, and the one still being gathered. */
  datatype Bursts = Bursts(closed: seq<Burst>, open: Burst)

  /** At the blocking receive. */
  function Waiting(script: seq<Delivery>): Bursts
    decreases |script|
  {
    if script == [] || script[0].Closed? then Bursts([], [])
    else if script[0].Silence? then Waiting(script[1..])
    else Gathering(script[1..], [script[0].paths])
  }

  /** In the debounce loop, with `burst` gathered so far. */
  function Gathering(script: seq<Delivery>, burst: Burst): Bursts
    decreases |script|
  {
    if script == [] then Bursts([], burst)
    else match script[0]
      case Event(paths) => Gathering(script[1..], burst + [paths])
      case Silence =>
        var rest := Waiting(script[1..]);
        rest.(closed := [burst] + rest.closed)
      case Closed => Bursts([burst], [])
  }

  /** The events dequeued before the channel closes. */
  function Events(script: seq<Delivery>): Burst {
    if script == [] || script[0].Closed? then []
    else (if script[0].Event? then [script[0].paths] else []) + Events(script[1..])
  }

  function Flatten(bursts: seq<Burst>): Burst {
    if bursts == [] then [] else bursts[0] + Flatten(bursts[1..])
  }

  /** Every event belongs to exactly one burst, in order. */
  lemma {:induction false} BurstsPartition(script: seq<Delivery>)
    ensures var b := Waiting(script); Flatten(b.closed) + b.open == Events(script)
    decreases |script|, 1
  {
    if script != [] && !script[0].Closed? {
      if script[0].Silence? {
        BurstsPartition(script[1..]);
      } else {
        GatherPartition(script[1..], [script[0].paths]);
      }
    }
  }

  lemma {:induction false} GatherPartition(script: seq<Delivery>, burst: Burst)
    ensures var b := Gathering(script, burst); Flatten(b.closed) + b.open == burst + Events(script)
    decreases |script|, 0
  {
    if script != [] {
      match script[0]
      case Event(paths) =>
        GatherPartition(script[1..], burst + [paths]);
        Assoc(burst, [paths], Events(script[1..]));
      case Silence =>
        var rest := Waiting(script[1..]);
        BurstsPartition(script[1..]);
        assert ([burst] + rest.closed)[1..] == rest.closed;
        Assoc(burst, Flatten(rest.closed), rest.open);
      case Closed =>
        assert Flatten([burst]) == burst by {
          assert [burst][1..] == [];
        }
    }
  }

  // ------------------------------------------------- bursts, told from the script

  /** The script has nothing but events from `i` up to `j`. */
  ghost predicate AllEvents(script: seq<Delivery>, i: nat, j: nat) {
    j <= |script| && forall k :: i <= k < j ==> script[k].Event?
  }

  /** The channel is open up to `i`. */
  ghost predicate OpenTo(script: seq<Delivery>, i: nat) {
    i <= |script| && forall k :: 0 <= k < i ==> !script[k].Closed?
  }

  function PathsOf(script: seq<Delivery>, i: nat, j: nat): (b: Burst)
    requires i <= j && AllEvents(script, i, j)
    ensures |b| == j - i && forall k :: 0 <= k < |b| ==> b[k] == script[i + k].paths
  {
    seq(j - i, k requires 0 <= k < j - i => script[i + k].paths)
  }

  /** From `i` to `j` the script is a maximal group of events without silence between them. */
  ghost predicate IsGroup(script: seq<Delivery>, i: nat, j: nat) {
    && i < j && AllEvents(script, i, j) && OpenTo(script, i)
    && (i > 0 ==> !script[i - 1].Event?) && (j < |script| ==> !script[j].Event?)
  }

  /** The loop is back at its blocking receive: not in the middle of a group. */
  ghost predicate Boundary(script: seq<Delivery>, i: nat) {
    OpenTo(script, i) && (i > 0 ==> !script[i - 1].Event?)
  }

  function GroupEnd(script: seq<Delivery>, i: nat): (j: nat)
    requires i <= |script|
    ensures i <= j <= |script| && AllEvents(script, i, j) && (j < |script| ==> !script[j].Event?)
    decreases |script| - i
  {
    if i < |script| && script[i].Event? then GroupEnd(script, i + 1) else i
  }

  /** Gathering runs to the end of the group. */
  lemma {:induction false} GatherGroup(script: seq<Delivery>, i: nat, k: nat, j: nat)
    requires i < k <= j && AllEvents(script, i, j) && (j < |script| ==> !script[j].Event?)
    ensures Gathering(script[k..], PathsOf(script, i, k)) ==
            if j == |script| then Bursts([], PathsOf(script, i, j))
            else if script[j].Silence? then Prefixed([PathsOf(script, i, j)], Waiting(script[j + 1..]))
            else Bursts([PathsOf(script, i, j)], [])
    decreases j - k
  {
    if k < j {
      assert script[k..][1..] == script[k + 1..];
      assert PathsOf(script, i, k) + [script[k].paths] == PathsOf(script, i, k + 1);
      GatherGroup(script, i, k + 1, j);
    } else if j < |script| {
      assert script[k..][1..] == script[k + 1..];
    }
  }

  lemma WaitGroup(script: seq<Delivery>, i: nat, j: nat)
    requires IsGroup(script, i, j)
    ensures Waiting(script[i..]) ==
            if j == |script| then Bursts([], PathsOf(script, i, j))
            else if script[j].Silence? then Prefixed([PathsOf(script, i, j)], Waiting(script[j + 1..]))
            else Bursts([PathsOf(script, i, j)], [])
  {
    assert script[i..][1..] == script[i + 1..];
    assert PathsOf(script, i, i + 1) == [script[i].paths];
    GatherGroup(script, i, i + 1, j);
  }

  /** Where a burst lies in the script. */
  datatype Span = Span(from: nat, to: nat)
  {
    ghost predicate Has(p: nat) { from <= p < to }
  }

  /** The span is a whole group of the script, and holds this burst. */
  ghost predicate Lies(script: seq<Delivery>, burst: Burst, s: Span) {
    IsGroup(script, s.from, s.to) && burst == PathsOf(script, s.from, s.to)
  }

  /** All bursts in order, the open one last. */
  function Every(b: Bursts): seq<Burst> { b.closed + if b.open == [] then [] else [b.open] }

  /**
   The bursts lie one after the other from `i` on, each a whole group of the script;
   something follows a closed one, and nothing an open one.
   */
  ghost predicate Laid(script: seq<Delivery>, i: nat, b: Bursts, spans: seq<Span>) {
    LaidIn(script, i, Every(b), |b.closed|, spans)
  }

  ghost predicate LaidIn(script: seq<Delivery>, i: nat, bursts: seq<Burst>, closed: nat, spans: seq<Span>) {
    && |spans| == |bursts|
    && (forall k :: 0 <= k < |spans| ==> i <= spans[k].from && Lies(script, bursts[k], spans[k]))
    && (forall k :: 0 <= k < |spans| ==> (spans[k].to < |script| <==> k < closed))
    && (forall k, l :: 0 <= k < l < |spans| ==> spans[k].to <= spans[l].from)
  }

  /** Every event received lies in a burst. */
  ghost predicate CoversAll(script: seq<Delivery>, i: nat, spans: seq<Span>) {
    forall p :: i <= p < |script| && script[p].Event? && OpenTo(script, p) ==> exists k :: 0 <= k < |spans| && spans[k].Has(p)
  }

  lemma CoverMore(script: seq<Delivery>, i: nat, j: nat, spans: seq<Span>)
    requires i < j <= |script| && AllEvents(script, i, j) && CoversAll(script, j, spans)
    ensures CoversAll(script, i, [Span(i, j)] + spans)
  {
    var all := [Span(i, j)] + spans;
    forall p | i <= p < |script| && script[p].Event? && OpenTo(script, p)
      ensures exists k :: 0 <= k < |all| && all[k].Has(p)
    {
      if p < j {
        assert all[0].Has(p);
      } else {
        var k :| 0 <= k < |spans| && spans[k].Has(p);
        assert all[k + 1].Has(p);
      }
    }
  }

  lemma LayFirst(script: seq<Delivery>, i: nat, j: nat, burst: Burst, bursts: seq<Burst>, closed: nat, spans: seq<Span>)
    requires Lies(script, burst, Span(i, j)) && j < |script| && LaidIn(script, j, bursts, closed, spans)
    ensures LaidIn(script, i, [burst] + bursts, closed + 1, [Span(i, j)] + spans)
  {
    var all := [Span(i, j)] + spans;
    assert forall k :: 1 <= k < |all| ==> all[k] == spans[k - 1] && ([burst] + bursts)[k] == bursts[k - 1];
  }

  lemma LayMore(script: seq<Delivery>, i: nat, j: nat, b: Bursts, spans: seq<Span>)
    requires IsGroup(script, i, j) && j < |script| && Laid(script, j, b, spans)
    ensures Laid(script, i, Prefixed([PathsOf(script, i, j)], b), [Span(i, j)] + spans)
  {
    var own := PathsOf(script, i, j);
    LayFirst(script, i, j, own, Every(b), |b.closed|, spans);
    assert Every(Prefixed([own], b)) == [own] + Every(b);
  }

  lemma NextGroup(script: seq<Delivery>, i: nat) returns (j: nat)
    requires Boundary(script, i) && i < |script| && script[i].Event?
    ensures IsGroup(script, i, j)
  {
    j := GroupEnd(script, i + 1);
  }

  /** From a boundary on, the bursts are exactly the groups of the script. */
  ghost predicate Described(script: seq<Delivery>, i: nat, b: Bursts, spans: seq<Span>) {
    Laid(script, i, b, spans) && CoversAll(script, i, spans)
  }

  lemma NothingLeft(script: seq<Delivery>, i: nat)
    requires i <= |script| && (i < |script| ==> script[i].Closed?)
    ensures Described(script, i, Bursts([], []), [])
  {}

  lemma SkipSilence(script: seq<Delivery>, i: nat, b: Bursts, spans: seq<Span>)
    requires i < |script| && !script[i].Event? && Described(script, i + 1, b, spans)
    ensures Described(script, i, b, spans)
  {}

  lemma OneMore(script: seq<Delivery>, i: nat, j: nat, b: Bursts, spans: seq<Span>)
    requires IsGroup(script, i, j) && j < |script| && Described(script, j, b, spans)
    ensures Described(script, i, Prefixed([PathsOf(script, i, j)], b), [Span(i, j)] + spans)
  {
    LayMore(script, i, j, b, spans);
    CoverMore(script, i, j, spans);
  }

  lemma LastOpen(script: seq<Delivery>, i: nat)
    requires IsGroup(script, i, |script|)
    ensures Described(script, i, Bursts([], PathsOf(script, i, |script|)), [Span(i, |script|)])
  {
    CoverMore(script, i, |script|, []);
    assert [Span(i, |script|)] + [] == [Span(i, |script|)];
  }

  lemma {:induction false} BurstsLaid(script: seq<Delivery>, i: nat) returns (spans: seq<Span>)
    requires Boundary(script, i)
    ensures Described(script, i, Waiting(script[i..]), spans)
    decreases |script| - i
  {
    spans := [];
    if i == |script| || script[i].Closed? {
      NothingLeft(script, i);
    } else if script[i].Silence? {
      assert script[i..][1..] == script[i + 1..];
      spans := BurstsLaid(script, i + 1);
      SkipSilence(script, i, Waiting(script[i + 1..]), spans);
    } else {
      var j := NextGroup(script, i);
      WaitGroup(script, i, j);
      if j == |script| {
        LastOpen(script, i);
        spans := [Span(i, j)];
      } else {
        var b := Bursts([], []);
        if script[j].Silence? {
          spans := BurstsLaid(script, j + 1);
          b := Waiting(script[j + 1..]);
          SkipSilence(script, j, b, spans);
        } else {
          NothingLeft(script, j);
        }
        OneMore(script, i, j, b, spans);
        spans := [Span(i, j)] + spans;
      }
    }
  }

  /**
   The bursts of a script are its maximal groups of events without silence
   between them, in order; all are closed but one that nothing follows.
   */
  lemma BurstsAreGroups(script: seq<Delivery>) returns (spans: seq<Span>)
    ensures Described(script, 0, Waiting(script), spans)
  {
    assert script[0..] == script;
    spans := BurstsLaid(script, 0);
  }

  lemma GroupHas(script: seq<Delivery>, s: Span, p: nat, q: nat)
    requires IsGroup(script, s.from, s.to) && s.Has(p) && p < q < |script| && OpenTo(script, q) && script[q].Event?
    ensures s.Has(q) <==> forall r :: p < r < q ==> !script[r].Silence?
  {
    if !s.Has(q) {
      assert !script[s.to].Event? && s.to != q;
    }
  }

  /** Two events are in one burst exactly if no silence lies between them. */
  lemma SameBurstIff(script: seq<Delivery>, spans: seq<Span>, p: nat, q: nat)
    requires Described(script, 0, Waiting(script), spans)
    requires p < q < |script| && script[p].Event? && script[q].Event? && OpenTo(script, q)
    ensures (exists k :: 0 <= k < |spans| && spans[k].Has(p) && spans[k].Has(q)) <==> forall r :: p < r < q ==> !script[r].Silence?
  {
    var k :| 0 <= k < |spans| && spans[k].Has(p);
    forall l | 0 <= l < |spans| && spans[l].Has(p)
      ensures spans[l].Has(q) <==> forall r :: p < r < q ==> !script[r].Silence?
    {
      assert Lies(script, Every(Waiting(script))[l], spans[l]);
      GroupHas(script, spans[l], p, q);
    }
  }

  // ------------------------------------------------------------------ the loop

  function Dequeues(burst: Burst): seq<Entry> {
    seq(|burst|, i requires 0 <= i < |burst| => Dequeued(burst[i]))
  }

  /** What handling one closed burst leaves in the log. */
  function BurstLog(burst: Burst): seq<Entry> {
    Dequeues(burst) + if Triggers(burst) then [SessionStart] else []
  }

  function LogOf(bursts: seq<Burst>): seq<Entry> {
    if bursts == [] then [SessionStart] else LogOf(bursts[..|bursts| - 1]) + BurstLog(bursts[|bursts| - 1])
  }

  /** Gather the rest of a burst; `closed` is false when the script ends first. */
  method Debounce(script: seq<Delivery>, i0: nat, first: seq<string>)
    returns (i: nat, changed: seq<string>, closed: bool, burst: Burst)
    requires i0 <= |script|
    ensures i0 <= i <= |script| && (!closed ==> i == |script|)
    ensures Gathering(script[i0..], [first]) ==
            if !closed then Bursts([], burst)
            else Prefixed([burst], Waiting(script[i..]))
    ensures changed == ChangedPaths(burst)
  {
    i, changed, burst := i0, PythonPaths(first), [first];
    ChangedSnoc([], first);
    assert [] + [first] == [first];
    while i < |script| && script[i].Event?
      invariant i0 <= i <= |script|
      invariant Gathering(script[i0..], [first]) == Gathering(script[i..], burst)
      invariant changed == ChangedPaths(burst)
    {
      assert script[i..][1..] == script[i + 1..];
      var more := PythonPaths(script[i].paths);
      ChangedSnoc(burst, script[i].paths);
      changed := changed + more;
      burst := burst + [script[i].paths];
      i := i + 1;
    }
    closed := i < |script|;
    if closed && script[i].Silence? {
      assert script[i..][1..] == script[i + 1..];
      i := i + 1;
    }
  }

  lemma ChangedSnoc(burst: Burst, e: seq<string>)
    ensures ChangedPaths(burst + [e]) == ChangedPaths(burst) + PythonPaths(e)
  {}

  /** `done` are the bursts closed before position `i`, where the loop is back at its receive. */
  ghost predicate AtReceive(script: seq<Delivery>, i: nat, done: seq<Burst>) {
    i <= |script| && Waiting(script) == Prefixed(done, Waiting(script[i..]))
  }

  function Prefixed(done: seq<Burst>, rest: Bursts): Bursts { Bursts(done + rest.closed, rest.open) }

  lemma CloseBurst(script: seq<Delivery>, i: nat, done: seq<Burst>, burst: Burst, i': nat)
    requires AtReceive(script, i, done) && i < |script| && i' <= |script|
    requires Waiting(script[i..]) == Prefixed([burst], Waiting(script[i'..]))
    ensures AtReceive(script, i', done + [burst])
  {
    Assoc(done, [burst], Waiting(script[i'..]).closed);
  }

  lemma LogSnoc(done: seq<Burst>, burst: Burst)
    ensures LogOf(done + [burst]) == LogOf(done) + Dequeues(burst) + if Triggers(burst) then [SessionStart] else []
  {
    assert (done + [burst])[..|done|] == done;
    Assoc(LogOf(done), Dequeues(burst), if Triggers(burst) then [SessionStart] else []);
  }

  // ------------------------------------------------------ the log, told from the script

  ghost predicate HasRelevantPath(d: Delivery) { d.Event? && exists path :: path in d.paths && IsRelevant(path) }

  ghost predicate RelevantGroup(script: seq<Delivery>, i: nat, j: nat) {
    IsGroup(script, i, j) && exists q :: i <= q < j && HasRelevantPath(script[q])
  }

  /** The event before `j` ends a group that has a relevant path, and something follows it. */
  ghost predicate SessionAt(script: seq<Delivery>, j: nat) {
    j < |script| && exists i :: 0 <= i < j && RelevantGroup(script, i, j)
  }

  /** The first session, then every event received, with a session after the last of each relevant group. */
  ghost function Expected(script: seq<Delivery>, n: nat): seq<Entry>
    requires n <= |script|
  {
    if n == 0 then [SessionStart]
    else
      var p := n - 1;
      Expected(script, p) +
      if !OpenTo(script, p) || !script[p].Event? then []
      else [Dequeued(script[p].paths)] + if SessionAt(script, n) then [SessionStart] else []
  }

  lemma RelevantIff(e: seq<string>)
    ensures HasRelevant(e) <==> HasRelevantPath(Event(e))
  {
    HasRelevantIff(e);
  }

  lemma GroupTriggers(script: seq<Delivery>, i: nat, j: nat)
    requires IsGroup(script, i, j)
    ensures Triggers(PathsOf(script, i, j)) <==> RelevantGroup(script, i, j)
  {
    var b := PathsOf(script, i, j);
    TriggersIff(b);
    forall q | i <= q < j
      ensures b[q - i] in b && (HasRelevant(b[q - i]) <==> HasRelevantPath(script[q]))
    {
      RelevantIff(b[q - i]);
    }
    if Triggers(b) {
      var e :| e in b && HasRelevant(e);
      var k :| 0 <= k < |b| && b[k] == e;
      assert b[(i + k) - i] == e && HasRelevantPath(script[i + k]);
    }
  }

  /** At the end of a group there is a session exactly if the group has a relevant path and is followed by something. */
  lemma GroupSession(script: seq<Delivery>, i: nat, j: nat)
    requires IsGroup(script, i, j)
    ensures SessionAt(script, j) <==> j < |script| && RelevantGroup(script, i, j)
    ensures forall k :: i < k < j ==> !SessionAt(script, k)
  {
    forall i' | 0 <= i' < j && IsGroup(script, i', j)
      ensures i' == i
    {}
  }

  /** Inside a group the log only grows by its events. */
  lemma {:induction false} GroupLog(script: seq<Delivery>, i: nat, k: nat, j: nat)
    requires IsGroup(script, i, j) && i <= k < j
    ensures AllEvents(script, i, k) && Expected(script, k) == Expected(script, i) + Dequeues(PathsOf(script, i, k))
    decreases k
  {
    if k == i {
      assert Expected(script, i) + Dequeues(PathsOf(script, i, i)) == Expected(script, i);
    } else {
      GroupLog(script, i, k - 1, j);
      GroupSession(script, i, j);
      var e := [Dequeued(script[k - 1].paths)];
      assert Dequeues(PathsOf(script, i, k)) == Dequeues(PathsOf(script, i, k - 1)) + e;
      Assoc(Expected(script, i), Dequeues(PathsOf(script, i, k - 1)), e);
    }
  }

  lemma WholeGroupLog(script: seq<Delivery>, i: nat, j: nat)
    requires IsGroup(script, i, j)
    ensures var b := PathsOf(script, i, j);
            Expected(script, j) == Expected(script, i) + Dequeues(b) + if j < |script| && Triggers(b) then [SessionStart] else []
  {
    var b, before := PathsOf(script, i, j), PathsOf(script, i, j - 1);
    GroupLog(script, i, j - 1, j);
    GroupSession(script, i, j);
    GroupTriggers(script, i, j);
    var e := [Dequeued(script[j - 1].paths)];
    assert Dequeues(b) == Dequeues(before) + e;
    Assoc(Expected(script, i), Dequeues(before), e);
    Assoc(Expected(script, i) + Dequeues(before), e, if j < |script| && Triggers(b) then [SessionStart] else []);
  }

  lemma {:induction false} ClosedLog(script: seq<Delivery>, i: nat, n: nat)
    requires i < |script| && script[i].Closed? && i <= n <= |script|
    ensures Expected(script, n) == Expected(script, i)
    decreases n
  {
    if i < n {
      ClosedLog(script, i, n - 1);
    }
  }

  /** What the loop logs is what the script says. */
  ghost predicate Agreed(script: seq<Delivery>) {
    var b := Waiting(script); LogOf(b.closed) + Dequeues(b.open) == Expected(script, |script|)
  }

  lemma AgreedAtEnd(script: seq<Delivery>, i: nat, done: seq<Burst>)
    requires i <= |script| && (i < |script| ==> script[i].Closed?)
    requires Waiting(script) == Bursts(done, []) && LogOf(done) == Expected(script, i)
    ensures Agreed(script)
  {
    if i < |script| {
      ClosedLog(script, i, |script|);
    }
    assert LogOf(done) + Dequeues([]) == LogOf(done);
  }

  lemma AgreedAtOpen(script: seq<Delivery>, i: nat, done: seq<Burst>)
    requires AtReceive(script, i, done) && LogOf(done) == Expected(script, i) && IsGroup(script, i, |script|)
    ensures Agreed(script)
  {
    var b := PathsOf(script, i, |script|);
    WaitGroup(script, i, |script|);
    WholeGroupLog(script, i, |script|);
    assert done + [] == done && LogOf(done) + Dequeues(b) + [] == LogOf(done) + Dequeues(b);
  }

  /** A group that something ends. */
  lemma GroupDone(script: seq<Delivery>, i: nat, j: nat, done: seq<Burst>)
    requires AtReceive(script, i, done) && LogOf(done) == Expected(script, i) && IsGroup(script, i, j) && j < |script|
    ensures var b := PathsOf(script, i, j);
            && LogOf(done + [b]) == Expected(script, j)
            && (script[j].Silence? ==> AtReceive(script, j + 1, done + [b]))
            && (script[j].Closed? ==> Waiting(script) == Bursts(done + [b], []))
  {
    var b := PathsOf(script, i, j);
    WaitGroup(script, i, j);
    WholeGroupLog(script, i, j);
    LogSnoc(done, b);
    if script[j].Silence? {
      CloseBurst(script, i, done, b, j + 1);
    }
  }

  /** The loop is at its receive at `i`, and has logged what the script says so far. */
  ghost predicate UpTo(script: seq<Delivery>, i: nat, done: seq<Burst>) {
    Boundary(script, i) && AtReceive(script, i, done) && LogOf(done) == Expected(script, i)
  }

  lemma SilencePasses(script: seq<Delivery>, i: nat, done: seq<Burst>)
    requires UpTo(script, i, done) && i < |script| && script[i].Silence?
    ensures UpTo(script, i + 1, done)
  {
    assert script[i..][1..] == script[i + 1..];
  }

  lemma GroupPasses(script: seq<Delivery>, i: nat, j: nat, done: seq<Burst>)
    requires UpTo(script, i, done) && IsGroup(script, i, j) && j < |script| && script[j].Silence?
    ensures UpTo(script, j + 1, done + [PathsOf(script, i, j)])
  {
    GroupDone(script, i, j, done);
  }

  lemma GroupCloses(script: seq<Delivery>, i: nat, j: nat, done: seq<Burst>)
    requires UpTo(script, i, done) && IsGroup(script, i, j) && j < |script| && script[j].Closed?
    ensures Agreed(script)
  {
    GroupDone(script, i, j, done);
    AgreedAtEnd(script, j, done + [PathsOf(script, i, j)]);
  }

  lemma ScriptEnds(script: seq<Delivery>, i: nat, done: seq<Burst>)
    requires UpTo(script, i, done) && (i < |script| ==> script[i].Closed?)
    ensures Agreed(script)
  {
    assert done + [] == done;
    AgreedAtEnd(script, i, done);
  }

  /** One turn of the loop: back at the receive, or out of it. */
  ghost predicate Turned(script: seq<Delivery>, i: nat, i': nat, done': seq<Burst>) {
    if i < i' then UpTo(script, i', done') else Agreed(script)
  }

  lemma GroupTurn(script: seq<Delivery>, i: nat, j: nat, done: seq<Burst>) returns (i': nat, done': seq<Burst>)
    requires UpTo(script, i, done) && IsGroup(script, i, j)
    ensures Turned(script, i, i', done')
  {
    i', done' := i, done;
    if j == |script| {
      AgreedAtOpen(script, i, done);
    } else if script[j].Silence? {
      GroupPasses(script, i, j, done);
      i', done' := j + 1, done + [PathsOf(script, i, j)];
    } else {
      GroupCloses(script, i, j, done);
    }
  }

  lemma {:induction false} LogWalk(script: seq<Delivery>, i: nat, done: seq<Burst>)
    requires UpTo(script, i, done)
    ensures Agreed(script)
    decreases |script| - i
  {
    if i == |script| || script[i].Closed? {
      ScriptEnds(script, i, done);
    } else if script[i].Silence? {
      SilencePasses(script, i, done);
      LogWalk(script, i + 1, done);
    } else {
      var j := NextGroup(script, i);
      var i', done' := GroupTurn(script, i, j, done);
      if i < i' {
        LogWalk(script, i', done');
      }
    }
  }

  /**
   The log of the loop, from the script alone: the first session, then the events
   in order, with a session exactly after the last event of each maximal group
   without silence that has a relevant path.
   */
  lemma LogFromScript(script: seq<Delivery>)
    ensures var b := Waiting(script); LogOf(b.closed) + Dequeues(b.open) == Expected(script, |script|)
  {
    assert script[0..] == script && [] + Waiting(script).closed == Waiting(script).closed;
    LogWalk(script, 0, []);
  }

  /** The initial session, then one session after each burst with a relevant path. */
  method StartWatchLoop(script: seq<Delivery>) returns (log: seq<Entry>)
    ensures var b := Waiting(script); log == LogOf(b.closed) + Dequeues(b.open)
    ensures log == Expected(script, |script|)
  {
    LogFromScript(script);
    log := [SessionStart];
    var i := 0;
    ghost var done: seq<Burst> := [];
    assert script[0..] == script && [] + Waiting(script).closed == Waiting(script).closed;
    while i < |script| && !script[i].Closed?
      invariant AtReceive(script, i, done) && log == LogOf(done)
    {
      assert script[i..][1..] == script[i + 1..];
      if script[i].Silence? {
        i := i + 1;
        continue;
      }
      var next, changed, closed, burst := Debounce(script, i + 1, script[i].paths);
      if !closed {
        log := log + Dequeues(burst);
        assert done + [] == done;
        return;
      }
      CloseBurst(script, i, done, burst, next);
      LogSnoc(done, burst);
      log := log + Dequeues(burst);
      if changed != [] {
        log := log + [SessionStart];
      }
      i, done := next, done + [burst];
    }
    assert done + [] == done && log + Dequeues([]) == log;
  }

  // ---------------------------------------------------------------- main results

  /** Entry `i` is followed by a session. */
  ghost predicate Followed(log: seq<Entry>, i: nat) {
    exists j :: i < j < |log| && log[j].SessionStart?
  }

  /** Back at the receive, every relevant event dequeued so far has been followed by a session. */
  lemma {:induction false} NoLostUpdate(bursts: seq<Burst>, i: nat)
    requires i < |LogOf(bursts)| && LogOf(bursts)[i].Dequeued? && HasRelevant(LogOf(bursts)[i].paths)
    ensures Followed(LogOf(bursts), i)
  {
    if bursts != [] {
      var k := |bursts| - 1;
      var before, own, log := LogOf(bursts[..k]), BurstLog(bursts[k]), LogOf(bursts);
      if i < |before| {
        NoLostUpdate(bursts[..k], i);
        var j :| i < j < |before| && before[j].SessionStart?;
        assert log[j].SessionStart?;
      } else {
        assert log[i] == own[i - |before|];
        assert log[i].paths in bursts[k];
        TriggersIff(bursts[k]);
        assert log[|log| - 1] == own[|own| - 1];
      }
    }
  }

  function SessionCount(log: seq<Entry>): nat {
    if log == [] then 0 else SessionCount(log[..|log| - 1]) + if log[|log| - 1].SessionStart? then 1 else 0
  }

  function TriggerCount(bursts: seq<Burst>): nat {
    if bursts == [] then 0 else TriggerCount(bursts[..|bursts| - 1]) + if Triggers(bursts[|bursts| - 1]) then 1 else 0
  }

  lemma {:induction false} DequeuesAddNone(log: seq<Entry>, burst: Burst)
    ensures SessionCount(log + Dequeues(burst)) == SessionCount(log)
  {
    if burst == [] {
      assert log + Dequeues(burst) == log;
    } else {
      var k := |burst| - 1;
      assert (log + Dequeues(burst))[..|log| + k] == log + Dequeues(burst[..k]);
      DequeuesAddNone(log, burst[..k]);
    }
  }

  /** Besides the first, there is exactly one session per burst with a relevant path. */
  lemma {:induction false} SessionPerTrigger(bursts: seq<Burst>)
    ensures SessionCount(LogOf(bursts)) == 1 + TriggerCount(bursts)
  {
    if bursts == [] {
      assert LogOf(bursts)[..0] == [];
    } else {
      var k := |bursts| - 1;
      var mid := LogOf(bursts[..k]) + Dequeues(bursts[k]);
      SessionPerTrigger(bursts[..k]);
      DequeuesAddNone(LogOf(bursts[..k]), bursts[k]);
      if Triggers(bursts[k]) {
        Assoc(LogOf(bursts[..k]), Dequeues(bursts[k]), [SessionStart]);
        assert LogOf(bursts)[..|mid|] == mid;
      } else {
        assert LogOf(bursts) == mid;
      }
    }
  }
}
