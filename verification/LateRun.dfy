/**
 A timely run in which a worker answers after it was declared crashed. After a
 shutdown request its test is counted twice, which hides a test that never ran.
 */
module LateRun {
  import opened Wire
  import opened Strings
  import opened Resolver
  import opened Reporting
  import opened SchedulerMachine
  import opened SchedulerLaws
  import opened Fate
  import opened RunProtocol
  import opened NetInvariant
  import opened RunTheorems
  import opened Timing
  import opened RunSteps

  // ------------------------------------------------------------------ the scheduler

  /** One test dispatched at time 0. */
  function OneActive(tests: seq<RunnableTest>, maxWorkers: nat): Sched
    requires |tests| == 2
  {
    Sched(tests, maxWorkers, 0, Top, 1, map[0 := ActiveWorker(tests[0].testName, 0, 0)], 0, 0, 0,
          [RunStart(2), TestStart(tests[0].testName, tests[0].filePath)], [])
  }

  lemma FirstDispatch(tests: seq<RunnableTest>, maxWorkers: nat)
    requires |tests| == 2 && maxWorkers > 0
    ensures Dispatch(Init(tests, maxWorkers, 0).(pc := Waiting), Quiet(0, [])) == OneActive(tests, maxWorkers)
  {
    assert 0 % maxWorkers == 0;
    assert map[][0 := ActiveWorker(tests[0].testName, 0, 0)] == OneActive(tests, maxWorkers).active;
  }

  /** The shutdown is noticed at time 1, before the second test. */
  const STOP: Label := Supervisor(Answer(1, true, None, [], 1, []), true)

  function Stopping(tests: seq<RunnableTest>, maxWorkers: nat): Sched
    requires |tests| == 2
  {
    var s := OneActive(tests, maxWorkers);
    s.(pc := Draining(1 + DRAIN_MS), events := s.events + [SHUTDOWN])
  }

  /** A read that starts at time 1 gives up five seconds later. */
  const TIMEOUT: Label := Supervisor(Answer(1, false, None, [], 1 + READ_TIMEOUT_MS, []), true)

  function Swept(tests: seq<RunnableTest>, maxWorkers: nat): Sched
    requires |tests| == 2
  {
    var s := Stopping(tests, maxWorkers);
    s.(active := map[], failed := 1, collected := 1,
       events := s.events + [CrashEvent(tests[0].testName)], verdicts := [Crashed(0)])
  }

  lemma StopStep(y: Sys)
    requires |y.sched.tests| == 2 && y.sched.maxWorkers > 0 && y.sched == OneActive(y.sched.tests, y.sched.maxWorkers)
    ensures Next(y, STOP) == y.(sched := Stopping(y.sched.tests, y.sched.maxWorkers)) && OnTime(y, 0, STOP)
  {}

  lemma SweepStep(tests: seq<RunnableTest>, maxWorkers: nat)
    requires |tests| == 2 && maxWorkers > 0
    ensures Step(Stopping(tests, maxWorkers), TIMEOUT.answer) == Swept(tests, maxWorkers)
  {
    var s, a := Stopping(tests, maxWorkers), TIMEOUT.answer;
    NothingReadSweeps(s, a);
    OnlyStale(s.active, a.later);
    assert [0][1..] == [];
    assert s.active - {0} == map[];
    assert Declare(s, [0]) == Swept(tests, maxWorkers);
  }

  lemma OnlyStale(active: map<u32, ActiveWorker>, later: nat)
    requires active.Keys == {0} && active[0].startTime + STALE_MS < later
    ensures StaleIds(active, FullOrder([], 1), later) == [0]
  {
    var ids := StaleIds(active, FullOrder([], 1), later);
    assert TestId(0) in FullOrder([], 1);
    assert 0 in ids;
    assert forall i :: 0 <= i < |ids| ==> ids[i] in ids;
    assert |ids| <= 1;
  }

  lemma TimeoutStep(y: Sys)
    requires |y.sched.tests| == 2 && y.sched.maxWorkers > 0 && y.sched == Stopping(y.sched.tests, y.sched.maxWorkers)
    requires y.net.pipe == []
    ensures Next(y, TIMEOUT) == y.(sched := Swept(y.sched.tests, y.sched.maxWorkers)) && OnTime(y, 1, TIMEOUT)
  {
    SweepStep(y.sched.tests, y.sched.maxWorkers);
    assert Consume(y.net) == y.net;
  }

  // ------------------------------------------------------------ the answer arrives

  /** Nothing is under way. */
  ghost predicate Idle(n: Net) {
    n.up && n.channel == [] && n.writing == [] && n.pipe == [] && n.log == [] && n.got == 0
  }

  lemma WorkerAnswers(w: Worker, outcome: HarnessOutcome, ns: u64)
    requires w.alive && w.collecting && w.result.None? && w.sent == [] && Fits(RunWorker(w.payload, outcome, ns))
    ensures var r := RunWorker(w.payload, outcome, ns);
            var w' := WorkerStep(WorkerStep(w, FinishTest(outcome, ns)), Write(|FrameOf(r)|));
            && w' == w.(result := Some(r), sent := FrameOf(r))
            && ToQueue(w') == Some(Queued(r, FrameOf(r)))
  {
    var r := RunWorker(w.payload, outcome, ns);
    FrameReadsBack(EncodeResult(r));
  }

  lemma WorkerPart(n: Net, id: u32, outcome: HarnessOutcome, ns: u64, size: nat)
    requires id in n.workers
    ensures var w := WorkerStep(WorkerStep(n.workers[id], FinishTest(outcome, ns)), Write(size));
            NetStep(NetStep(n, WorkerActs(id, FinishTest(outcome, ns))), WorkerActs(id, Write(size))) ==
            n.(workers := n.workers[id := w])
  {
    var w1 := WorkerStep(n.workers[id], FinishTest(outcome, ns));
    assert n.workers[id := w1][id := WorkerStep(w1, Write(size))] == n.workers[id := WorkerStep(w1, Write(size))];
  }

  lemma ForwardPart(n: Net, f: seq<byte>)
    requires n.up && n.writing == [] && n.channel == [f] && n.pipe == []
    ensures NetStep(NetStep(n, ForwarderTakes), ForwarderWrites(|f|)) == n.(channel := [], pipe := f)
  {
    assert [f][1..] == [] && [] + f[..|f|] == f && f[|f|..] == [];
  }

  lemma TwoZygoteSteps(y0: Sys, t0: nat, labels: seq<Label>, y: Sys, t: nat, one: NetLabel, two: NetLabel)
    returns (more: seq<Label>)
    requires y0.sched.maxWorkers > 0 && y.sched.maxWorkers > 0 && Reaches(y0, t0, labels, y, t)
    ensures Reaches(y0, t0, more, y.(net := NetStep(NetStep(y.net, one), two)), t)
  {
    ZygoteExtends(y0, t0, labels, y, t, one);
    ZygoteExtends(y0, t0, labels + [Zygote(one)], y.(net := NetStep(y.net, one)), t, two);
    more := labels + [Zygote(one)] + [Zygote(two)];
  }

  /** A live worker's answer travels to the result socket. */
  lemma AnswerArrives(y0: Sys, t0: nat, labels: seq<Label>, y: Sys, t: nat, id: u32, outcome: HarnessOutcome, ns: u64)
    returns (more: seq<Label>, y': Sys)
    requires y0.sched.maxWorkers > 0 && y.sched.maxWorkers > 0 && Reaches(y0, t0, labels, y, t)
    requires Idle(y.net) && id in y.net.workers
    requires var w := y.net.workers[id];
             w.alive && w.collecting && w.result.None? && w.sent == [] && Fits(RunWorker(w.payload, outcome, ns))
    ensures Reaches(y0, t0, more, y', t)
    ensures y'.sched == y.sched && y'.net.pipe == FrameOf(RunWorker(y.net.workers[id].payload, outcome, ns))
  {
    var r := RunWorker(y.net.workers[id].payload, outcome, ns);
    var f := FrameOf(r);
    more := TwoZygoteSteps(y0, t0, labels, y, t, WorkerActs(id, FinishTest(outcome, ns)), WorkerActs(id, Write(|f|)));
    WorkerPart(y.net, id, outcome, ns, |f|);
    WorkerAnswers(y.net.workers[id], outcome, ns);
    var w := WorkerStep(WorkerStep(y.net.workers[id], FinishTest(outcome, ns)), Write(|f|));
    var y1 := y.(net := y.net.(workers := y.net.workers[id := w]));
    ZygoteExtends(y0, t0, more, y1, t, CollectorSends(id));
    more := more + [Zygote(CollectorSends(id))];
    var y2 := y1.(net := Enqueue(y1.net, id, Queued(r, f)));
    more := TwoZygoteSteps(y0, t0, more, y2, t, ForwarderTakes, ForwarderWrites(|f|));
    ForwardPart(y2.net, f);
    y' := y2.(net := y2.net.(channel := [], pipe := f));
  }

  // ------------------------------------------------------------------ the double count

  lemma LateRead(y: Sys, r: TestResult, now: nat)
    requires |y.sched.tests| == 2 && y.sched.maxWorkers > 0 && y.sched == Swept(y.sched.tests, y.sched.maxWorkers)
    requires Fits(r) && y.net.pipe == FrameOf(r) && now <= DRAIN_MS
    ensures Next(y, Look(now, FrameOf(r))).sched == Record(y.sched, r) && OnTime(y, now, Look(now, FrameOf(r)))
  {
    FrameReadsBack(EncodeResult(r));
    ResultRoundTrip(r);
    ReadTakes(y, Quiet(now, FrameOf(r)), true);
    ReadRecords(y.sched, Quiet(now, FrameOf(r)), r);
  }

  lemma Returns(y: Sys, now: nat)
    requires y.sched.maxWorkers > 0 && y.sched.pc.Draining? && y.sched.collected >= |y.sched.tests|
    ensures Next(y, Look(now, [])).sched == Finish(y.sched, now) && OnTime(y, now, Look(now, []))
  {}

  /** The first test counted twice, the run over, and its totals full although the second test never started. */
  ghost predicate DoubleCount(tests: seq<RunnableTest>, r: TestResult, s: Sched)
    requires |tests| == 2
  {
    && s.verdicts == [Crashed(0), Late(0, r)]
    && FinishEvents(s.events) == [CrashEvent(tests[0].testName), ResultEvent("test_0", r)]
    && s.pc.Done? && s.passed + s.failed == s.collected == |tests|
    && s.next == 1 && !HasVerdict(s.verdicts, 1)
  }

  /** What the run has reported when it returns. */
  lemma Counted(tests: seq<RunnableTest>, maxWorkers: nat, r: TestResult, now: nat)
    requires |tests| == 2 && r.testId == 0
    ensures var s := Record(Swept(tests, maxWorkers), r);
            s.pc.Draining? && s.collected == |s.tests| && s.maxWorkers == maxWorkers
    ensures DoubleCount(tests, r, Finish(Record(Swept(tests, maxWorkers), r), now))
  {
    var s := Finish(Record(Swept(tests, maxWorkers), r), now);
    var before := Stopping(tests, maxWorkers).events;
    var crash, late, end := CrashEvent(tests[0].testName), ResultEvent(LateName(0), r), s.events[|s.events| - 1];
    assert s.events == before + [crash] + [late] + [end];
    FinishSnoc(before, crash);
    FinishSnoc(before + [crash], late);
    FinishSnoc(before + [crash] + [late], end);
    NoneFinished(before);
    FirstName();
  }

  lemma FirstName()
    ensures LateName(0) == "test_0"
  {
    assert Decimal(0) == "0";
  }

  lemma {:induction false} NoneFinished(es: seq<MachineEvent>)
    requires forall e :: e in es ==> !e.TestFinished?
    ensures FinishEvents(es) == []
  {
    if es != [] {
      NoneFinished(es[..|es| - 1]);
    }
  }

  lemma FinishSnoc(es: seq<MachineEvent>, e: MachineEvent)
    ensures FinishEvents(es + [e]) == FinishEvents(es) + if e.TestFinished? then [e] else []
  {}

  /** Up to the sweep. */
  lemma SweptRun(cfg: Config, tests: seq<RunnableTest>, maxWorkers: nat) returns (labels: seq<Label>, y: Sys)
    requires |tests| == 2 && Startable(cfg, tests, maxWorkers)
    ensures Reaches(Boot(cfg, tests, maxWorkers, 0), 0, labels, y, 1 + READ_TIMEOUT_MS)
    ensures y.sched == Swept(tests, maxWorkers)
    ensures y.net == Spawn(Boot(cfg, tests, maxWorkers, 0).net, PayloadAt(cfg, Init(tests, maxWorkers, 0), 0))
  {
    var y0 := Boot(cfg, tests, maxWorkers, 0);
    labels := DispatchNext(y0, 0, [], y0, 0);
    y := Dispatched(y0, 0);
    FirstDispatch(tests, maxWorkers);
    StopStep(y);
    Extend(y0, 0, labels, y, 0, STOP);
    labels, y := labels + [STOP], Next(y, STOP);
    TimeoutStep(y);
    Extend(y0, 0, labels, y, 1, TIMEOUT);
    labels, y := labels + [TIMEOUT], Next(y, TIMEOUT);
  }

  /**
   Two tests, any number of slots, and whatever the first worker answers: a
   shutdown request stops dispatching after the first test, its worker is
   declared crashed, answers, and is counted again under a made-up name. The run
   returns long before the deadline, with passed + failed equal to the number of
   tests, although the second test never started.
   */
  lemma LateAnswerRun(cfg: Config, tests: seq<RunnableTest>, maxWorkers: nat, outcome: HarnessOutcome, ns: u64)
    returns (labels: seq<Label>)
    requires |tests| == 2 && Startable(cfg, tests, maxWorkers)
    requires Fits(RunWorker(PayloadAt(cfg, Init(tests, maxWorkers, 0), 0), outcome, ns))
    ensures TimelyRun(cfg, tests, maxWorkers, 0, labels)
    ensures DoubleCount(tests, RunWorker(PayloadAt(cfg, Init(tests, maxWorkers, 0), 0), outcome, ns),
                        RunOf(cfg, tests, maxWorkers, 0, labels).sched)
  {
    var y0, y := Boot(cfg, tests, maxWorkers, 0), Boot(cfg, tests, maxWorkers, 0);
    var r := RunWorker(PayloadAt(cfg, Init(tests, maxWorkers, 0), 0), outcome, ns);
    var now := 1 + READ_TIMEOUT_MS;
    labels, y := SweptRun(cfg, tests, maxWorkers);
    labels, y := AnswerArrives(y0, 0, labels, y, now, 0, outcome, ns);
    LateRead(y, r, now);
    Extend(y0, 0, labels, y, now, Look(now, FrameOf(r)));
    labels, y := labels + [Look(now, FrameOf(r))], Next(y, Look(now, FrameOf(r)));
    Counted(tests, maxWorkers, r, now);
    Returns(y, now);
    Extend(y0, 0, labels, y, now, Look(now, []));
    labels := labels + [Look(now, [])];
  }
}
