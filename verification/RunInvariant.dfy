/** What every run of the whole protocol keeps. */
module RunInvariant {
  import opened Wire
  import opened Resolver
  import opened SchedulerMachine
  import opened SchedulerLaws
  import opened Fate
  import opened RunProtocol
  import opened NetInvariant

  /** The results among the verdicts, in the order they were reported. */
  function Results(vs: seq<Verdict>): seq<TestResult> {
    if vs == [] then []
    else Results(vs[..|vs| - 1]) + if IsResult(vs[|vs| - 1]) then [vs[|vs| - 1].result] else []
  }

  function ResultsOf(qs: seq<Queued>): (rs: seq<TestResult>)
    ensures |rs| == |qs| && forall i :: 0 <= i < |qs| ==> rs[i] == qs[i].result
  {
    seq(|qs|, i requires 0 <= i < |qs| => qs[i].result)
  }

  /** Every payload fits a 32-bit frame. */
  ghost predicate PayloadsFit(cfg: Config, s: Sched)
    requires s.maxWorkers > 0
  {
    forall i :: 0 <= i < |s.tests| ==> PayloadOk(PayloadAt(cfg, s, i))
  }

  /** Each forked worker runs exactly the payload built for its test. */
  ghost predicate Delivered(cfg: Config, s: Sched, ws: map<u32, Worker>)
    requires s.maxWorkers > 0
  {
    forall id :: id in ws ==> id < |s.tests| && ws[id].payload == PayloadAt(cfg, s, id)
  }

  ghost predicate SchedOk(s: Sched) { Laws(s) && FateLaw(s) }

  ghost predicate Inv(y: Sys) {
    && SchedOk(y.sched) && PayloadsFit(y.cfg, y.sched) && NetOk(y.net, y.sched.next)
    && Delivered(y.cfg, y.sched, y.net.workers)
    && InStep(y.sched, y.net.log, y.net.got)
  }

  // -------------------------------------------------------- supervisor steps

  lemma ResultsSnoc(vs: seq<Verdict>, v: Verdict)
    ensures Results(vs + [v]) == Results(vs) + if IsResult(v) then [v.result] else []
  {}

  lemma {:induction false} DeclareResults(s: Sched, ids: seq<u32>)
    ensures Results(Declare(s, ids).verdicts) == Results(s.verdicts)
    decreases |ids|
  {
    if ids != [] && ids[0] in s.active {
      var s1 := Report(s.(active := s.active - {ids[0]}), CrashEvent(s.active[ids[0]].testName), Crashed(ids[0]));
      ResultsSnoc(s.verdicts, Crashed(ids[0]));
      DeclareResults(s1, ids[1..]);
    }
  }

  lemma RecordResults(s: Sched, r: TestResult)
    ensures Results(Record(s, r).verdicts) == Results(s.verdicts) + [r] && Record(s, r).next == s.next
  {}

  /** A read that finds a result records it; one that does not may only declare crashes. */
  lemma ReadResults(s: Sched, a: Answer, got: Option<TestResult>, stale: seq<u32>)
    requires s.maxWorkers > 0 && Reading(s, a)
    ensures var s' := StepOn(s, a, got, stale);
            s'.next == s.next && Results(s'.verdicts) == Results(s.verdicts) + if got.Some? then [got.value] else []
  {
    if got.Some? {
      RecordResults(s, got.value);
    } else {
      DeclareResults(s, stale);
      DeclareConfig(s, stale);
    }
  }

  lemma {:induction false} ResultIn(vs: seq<Verdict>, i: nat)
    requires i < |vs| && IsResult(vs[i])
    ensures vs[i].result in Results(vs)
  {
    if i < |vs| - 1 {
      ResultIn(vs[..|vs| - 1], i);
    }
  }

  /** The oldest unread result comes from a forked worker and has not been reported. */
  lemma NextExpected(s: Sched, log: seq<Queued>, got: nat)
    requires FateLaw(s) && DistinctIds(log) && got < |log| && log[got].result.testId < s.next
    requires Results(s.verdicts) == ResultsOf(log[..got])
    ensures Expected(s, log[got].result)
  {
    var vs, r := s.verdicts, log[got].result;
    forall i | 0 <= i < |vs| && IsResult(vs[i])
      ensures vs[i].id != r.testId
    {
      ResultIn(vs, i);
      var k :| 0 <= k < got && ResultsOf(log[..got])[k] == vs[i].result;
      assert log[k].result.testId != log[got].result.testId;
    }
  }

  /** Bytes delivered by the socket decode to the oldest unread result, or to nothing. */
  lemma Receives(n: Net, next: nat)
    requires NetOk(n, next)
    ensures Received(n.pipe) == if ReadFrame(n.pipe).Got? && n.got < |n.log| then Some(n.log[n.got].result) else None
    ensures ReadFrame(n.pipe).Got? ==> n.got < |n.log| && n.log[n.got].result.testId < next
  {
    if ReadFrame(n.pipe).Got? {
      ReadsOldest(n, next);
      ResultRoundTrip(n.log[n.got].result);
      assert Owned(n.log[n.got], n.workers);
    }
  }

  lemma StepSchedOk(s: Sched, a: Answer, got: Option<TestResult>, stale: seq<u32>)
    requires SchedOk(s)
    requires got.Some? ==> Expected(s, got.value)
    ensures SchedOk(StepOn(s, a, got, stale))
  {
    StepKeeps(s, a, got, stale);
    StepFate(s, a, got, stale);
  }

  lemma SamePayloads(cfg: Config, s: Sched, s': Sched, ws: map<u32, Worker>)
    requires s.maxWorkers > 0 && PayloadsFit(cfg, s) && Delivered(cfg, s, ws)
    requires s'.tests == s.tests && s'.maxWorkers == s.maxWorkers
    ensures PayloadsFit(cfg, s') && Delivered(cfg, s', ws)
  {
    forall i | 0 <= i < |s'.tests|
      ensures PayloadAt(cfg, s', i) == PayloadAt(cfg, s, i)
    {}
  }

  /** Putting the scheduler's and the network's parts of a step together. */
  lemma Link(y: Sys, s': Sched, n': Net)
    requires Inv(y) && SchedOk(s') && s'.tests == y.sched.tests && s'.maxWorkers == y.sched.maxWorkers
    requires NetOk(n', s'.next) && Delivered(y.cfg, y.sched, n'.workers)
    requires InStep(s', n'.log, n'.got)
    ensures Inv(y.(sched := s', net := n'))
  {
    SamePayloads(y.cfg, y.sched, s', n'.workers);
  }

  lemma ReadsOne(s: Sched, a: Answer, got: Option<TestResult>, stale: seq<u32>)
    requires SchedOk(s) && Reading(s, a)
    requires got.Some? ==> Expected(s, got.value)
    ensures var s' := StepOn(s, a, got, stale);
            && SchedOk(s') && s'.next == s.next
            && Results(s'.verdicts) == Results(s.verdicts) + if got.Some? then [got.value] else []
  {
    StepSchedOk(s, a, got, stale);
    ReadResults(s, a, got, stale);
  }

  lemma ResultsOfSnoc(log: seq<Queued>, k: nat)
    requires k < |log|
    ensures ResultsOf(log[..k + 1]) == ResultsOf(log[..k]) + [log[k].result]
  {}

  lemma StepIs(s: Sched, a: Answer, got: Option<TestResult>)
    requires s.maxWorkers > 0 && Received(a.avail) == got
    ensures Step(s, a) == StepOn(s, a, got, StaleIds(s.active, FullOrder(a.order, s.next), a.later))
  {}

  /** A read that gets a frame reports the oldest unread result. */
  lemma ReadGot(s: Sched, a: Answer, log: seq<Queued>, got: nat)
    requires SchedOk(s) && Reading(s, a) && DistinctIds(log) && got < |log| && log[got].result.testId < s.next
    requires Results(s.verdicts) == ResultsOf(log[..got]) && Received(a.avail) == Some(log[got].result)
    ensures var s' := Step(s, a); SchedOk(s') && s'.next == s.next && Results(s'.verdicts) == ResultsOf(log[..got + 1])
  {
    var r := log[got].result;
    NextExpected(s, log, got);
    ResultsOfSnoc(log, got);
    StepIs(s, a, Some(r));
    ReadsOne(s, a, Some(r), StaleIds(s.active, FullOrder(a.order, s.next), a.later));
  }

  lemma ReadBad(s: Sched, a: Answer)
    requires SchedOk(s) && Reading(s, a) && Received(a.avail) == None
    ensures var s' := Step(s, a); SchedOk(s') && s'.next == s.next && Results(s'.verdicts) == Results(s.verdicts)
  {
    StepIs(s, a, None);
    ReadsOne(s, a, None, StaleIds(s.active, FullOrder(a.order, s.next), a.later));
  }

  lemma ConsumeShape(n: Net)
    ensures var n' := Consume(n);
            && n'.workers == n.workers && n'.log == n.log
            && n'.got == if ReadFrame(n.pipe).Got? then n.got + 1 else n.got
  {}

  /** The verdicts so far carry exactly the results read so far, in order. */
  ghost predicate InStep(s: Sched, log: seq<Queued>, got: nat) {
    got <= |log| && Results(s.verdicts) == ResultsOf(log[..got])
  }

  lemma ReadsNext(s: Sched, n: Net, a: Answer)
    requires SchedOk(s) && NetOk(n, s.next) && InStep(s, n.log, n.got) && Reading(s, a) && a.avail == n.pipe
    ensures var s' := Step(s, a);
            SchedOk(s') && s'.next == s.next && InStep(s', n.log, if ReadFrame(n.pipe).Got? then n.got + 1 else n.got)
  {
    Receives(n, s.next);
    if ReadFrame(n.pipe).Got? {
      ReadGot(s, a, n.log, n.got);
    } else {
      ReadBad(s, a);
    }
  }

  lemma ReadKeeps(y: Sys, a: Answer)
    requires Inv(y) && Reading(y.sched, a)
    ensures Inv(ReadStep(y, a))
  {
    if a.avail == y.net.pipe && !MidFrame(y.net) {
      ReadsNext(y.sched, y.net, a);
      ConsumeKeeps(y.net, y.sched.next);
      ConsumeShape(y.net);
      StepConfig(y.sched, a);
      Link(y, Step(y.sched, a), Consume(y.net));
    }
  }

  lemma DispatchSched(s: Sched, a: Answer)
    requires SchedOk(s) && Dispatching(s)
    ensures var s' := Step(s, a);
            SchedOk(s') && s'.next == s.next + 1 && Results(s'.verdicts) == Results(s.verdicts)
  {
    DispatchKeeps(s, a);
    DispatchFate(s, a);
    DispatchShape(s, a);
    if a.dispatchError.Some? {
      ResultsSnoc(s.verdicts, DispatchFailed(TestId(s.next), a.dispatchError.value));
    }
  }

  lemma PayloadFits(cfg: Config, s: Sched, i: nat)
    requires s.maxWorkers > 0 && PayloadsFit(cfg, s) && i < |s.tests| <= 0x1_0000_0000
    ensures PayloadAt(cfg, s, i).testId == i && PayloadOk(PayloadAt(cfg, s, i))
  {
    SmallId(i);
  }

  lemma SmallId(i: nat)
    requires i < 0x1_0000_0000
    ensures TestId(i) == i
  {}

  lemma DispatchDelivers(cfg: Config, s: Sched, n: Net, failed: bool, forked: bool)
    requires s.maxWorkers > 0 && Delivered(cfg, s, n.workers) && PayloadsFit(cfg, s) && s.next < |s.tests| <= 0x1_0000_0000
    ensures var n' := DispatchNet(n, ForkCommand(PayloadAt(cfg, s, s.next)), failed, forked);
            n'.Some? ==> Delivered(cfg, s, n'.value.workers)
  {
    PayloadFits(cfg, s, s.next);
    DispatchSpawns(n, PayloadAt(cfg, s, s.next), failed, forked);
    SpawnDelivers(cfg, s, n, PayloadAt(cfg, s, s.next));
  }

  lemma SpawnDelivers(cfg: Config, s: Sched, n: Net, p: TestPayload)
    requires s.maxWorkers > 0 && Delivered(cfg, s, n.workers) && p.testId < |s.tests| && p == PayloadAt(cfg, s, p.testId)
    ensures Delivered(cfg, s, Spawn(n, p).workers)
  {}

  lemma DispatchStepKeeps(y: Sys, a: Answer, forked: bool)
    requires Inv(y) && Dispatching(y.sched)
    ensures Inv(DispatchStep(y, a, forked))
  {
    var s, p := y.sched, PayloadAt(y.cfg, y.sched, y.sched.next);
    PayloadFits(y.cfg, s, s.next);
    DispatchNetKeeps(y.net, s.next, p, a.dispatchError.Some?, forked);
    var n := DispatchNet(y.net, ForkCommand(p), a.dispatchError.Some?, forked);
    if n.Some? {
      DispatchSched(s, a);
      StepConfig(s, a);
      DispatchDelivers(y.cfg, s, y.net, a.dispatchError.Some?, forked);
      Link(y, Step(s, a), n.value);
    }
  }

  /** Steps that neither read nor dispatch leave next and verdicts alone. */
  lemma QuietSched(s: Sched, a: Answer)
    requires SchedOk(s) && !Reading(s, a) && !Dispatching(s)
    ensures var s' := Step(s, a); SchedOk(s') && s'.next == s.next && s'.verdicts == s.verdicts
  {
    StepSchedOk(s, a, None, StaleIds(s.active, FullOrder(a.order, s.next), a.later));
    assert Step(s, a) == StepOn(s, a, None, StaleIds(s.active, FullOrder(a.order, s.next), a.later));
  }

  lemma SupervisorKeeps(y: Sys, a: Answer, forked: bool)
    requires Inv(y)
    ensures Inv(SupervisorStep(y, a, forked))
  {
    if Reading(y.sched, a) {
      ReadKeeps(y, a);
    } else if Dispatching(y.sched) {
      DispatchStepKeeps(y, a, forked);
    } else {
      QuietSched(y.sched, a);
      StepConfig(y.sched, a);
      Link(y, Step(y.sched, a), y.net);
    }
  }

  lemma NetStepLog(n: Net, l: NetLabel)
    ensures NetStep(n, l).got == n.got && n.log <= NetStep(n, l).log
    ensures NetStep(n, l).workers.Keys == n.workers.Keys
    ensures forall id :: id in n.workers ==> NetStep(n, l).workers[id].payload == n.workers[id].payload
  {}

  lemma ZygoteKeeps(y: Sys, l: NetLabel)
    requires Inv(y)
    ensures Inv(y.(net := NetStep(y.net, l)))
  {
    NetStepKeeps(y.net, y.sched.next, l);
    NetStepLog(y.net, l);
    InStepGrows(y.sched, y.net.log, NetStep(y.net, l).log, y.net.got);
    Link(y, y.sched, NetStep(y.net, l));
  }

  lemma InStepGrows(s: Sched, log: seq<Queued>, log': seq<Queued>, got: nat)
    requires InStep(s, log, got) && log <= log'
    ensures InStep(s, log', got)
  {}

  /** One step of the whole system. */
  lemma NextKeeps(y: Sys, l: Label)
    requires Inv(y)
    ensures Inv(Next(y, l))
  {
    match l
    case Supervisor(a, forked) => SupervisorKeeps(y, a, forked);
    case Zygote(step) => ZygoteKeeps(y, step);
  }

  // --------------------------------------------------------------- whole runs

  lemma BootInv(cfg: Config, tests: seq<RunnableTest>, maxWorkers: nat, now: nat)
    requires maxWorkers > 0 && |tests| <= 0x1_0000_0000
    requires PayloadsFit(cfg, Init(tests, maxWorkers, now))
    ensures Inv(Boot(cfg, tests, maxWorkers, now))
  {
    var y := Boot(cfg, tests, maxWorkers, now);
    InitLaws(tests, maxWorkers, now);
    assert FateLaw(y.sched);
    assert NetOk(y.net, y.sched.next);
    assert InStep(y.sched, y.net.log, y.net.got);
  }

  /** Every state of every run satisfies the invariant. */
  lemma {:induction false} TraceInv(cfg: Config, tests: seq<RunnableTest>, maxWorkers: nat, now: nat, labels: seq<Label>)
    requires maxWorkers > 0 && |tests| <= 0x1_0000_0000
    requires PayloadsFit(cfg, Init(tests, maxWorkers, now))
    ensures Inv(Trace(Boot(cfg, tests, maxWorkers, now), labels))
  {
    var y0 := Boot(cfg, tests, maxWorkers, now);
    if labels == [] {
      BootInv(cfg, tests, maxWorkers, now);
    } else {
      var k := |labels| - 1;
      TraceInv(cfg, tests, maxWorkers, now, labels[..k]);
      NextKeeps(Trace(y0, labels[..k]), labels[k]);
    }
  }
}
