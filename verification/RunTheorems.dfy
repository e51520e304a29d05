/** The promises of a run, for every sequence of steps of the whole system. */
module RunTheorems {
  import opened Wire
  import opened Resolver
  import opened Reporting
  import opened SchedulerMachine
  import opened SchedulerLaws
  import opened JunitTrace
  import opened Fate
  import opened RunProtocol
  import opened NetInvariant
  import opened RunInvariant

  /** How a session starts: at least one slot, ids and payload lengths within 32 bits. */
  ghost predicate Startable(cfg: Config, tests: seq<RunnableTest>, maxWorkers: nat) {
    && maxWorkers > 0 && |tests| <= 0x1_0000_0000
    && PayloadsFit(cfg, Init(tests, maxWorkers, 0))
  }

  ghost function RunOf(cfg: Config, tests: seq<RunnableTest>, maxWorkers: nat, now: nat, labels: seq<Label>): Sys
    requires maxWorkers > 0
  {
    Trace(Boot(cfg, tests, maxWorkers, now), labels)
  }

  lemma RunInv(cfg: Config, tests: seq<RunnableTest>, maxWorkers: nat, now: nat, labels: seq<Label>)
    requires Startable(cfg, tests, maxWorkers)
    ensures Inv(RunOf(cfg, tests, maxWorkers, now, labels))
  {
    SamePayloads(cfg, Init(tests, maxWorkers, 0), Init(tests, maxWorkers, now), map[]);
    TraceInv(cfg, tests, maxWorkers, now, labels);
  }

  /** The scheduler of any run of the whole system is a run of the machine, on some answers. */
  lemma {:induction false} SchedulerFollowsMachine(cfg: Config, tests: seq<RunnableTest>, maxWorkers: nat, now: nat, labels: seq<Label>)
    returns (answers: seq<Answer>)
    requires maxWorkers > 0
    ensures RunOf(cfg, tests, maxWorkers, now, labels).sched == Exec(Init(tests, maxWorkers, now), answers)
  {
    answers := [];
    if labels != [] {
      var k := |labels| - 1;
      answers := SchedulerFollowsMachine(cfg, tests, maxWorkers, now, labels[..k]);
      var y := RunOf(cfg, tests, maxWorkers, now, labels[..k]);
      match labels[k]
      case Supervisor(a, forked) =>
        SupervisorConfig(y, a, forked);
        if SupervisorStep(y, a, forked).sched != y.sched {
          assert (answers + [a])[..|answers|] == answers;
          answers := answers + [a];
        }
      case Zygote(_) =>
    }
  }

  /**
   A result is reported under a made-up name only if its test was declared
   crashed, or its dispatch failed, before; and no test is reported three times.
   */
  lemma FinishEventsPerTest(cfg: Config, tests: seq<RunnableTest>, maxWorkers: nat, now: nat, labels: seq<Label>)
    requires Startable(cfg, tests, maxWorkers)
    ensures var vs := RunOf(cfg, tests, maxWorkers, now, labels).sched.verdicts;
            && (forall j :: 0 <= j < |vs| && vs[j].Late? ==> Excused(vs, j))
            && Ordered(vs)
            && forall i, j, k :: 0 <= i < j < k < |vs| ==> !(vs[i].id == vs[j].id == vs[k].id)
  {
    RunInv(cfg, tests, maxWorkers, now, labels);
  }

  /** The finish events at `i` and `j` are the two of one test: first its crash or failed dispatch, then its result. */
  ghost predicate CountedTwice(vs: seq<Verdict>, i: nat, j: nat) {
    && i < j < |vs| && vs[i].id == vs[j].id && (vs[i].Crashed? || vs[i].DispatchFailed?) && vs[j].Late?
    && forall k :: 0 <= k < |vs| && vs[k].id == vs[j].id ==> k == i || k == j
  }

  /** In every run a late result is the second finish event of its test, under a made-up name. */
  lemma LateCountsAgain(cfg: Config, tests: seq<RunnableTest>, maxWorkers: nat, now: nat, labels: seq<Label>, j: nat)
    returns (i: nat)
    requires Startable(cfg, tests, maxWorkers)
    requires var vs := RunOf(cfg, tests, maxWorkers, now, labels).sched.verdicts; j < |vs| && vs[j].Late?
    ensures var s := RunOf(cfg, tests, maxWorkers, now, labels).sched;
            var vs, fs := s.verdicts, FinishEvents(s.events);
            && CountedTwice(vs, i, j) && |fs| == |vs|
            && fs[i].TestFinished? && fs[i].id == NameOf(tests, vs[j].id)
            && fs[j] == ResultEvent(LateName(vs[j].id), vs[j].result)
  {
    RunInv(cfg, tests, maxWorkers, now, labels);
    TraceConfig(Boot(cfg, tests, maxWorkers, now), labels);
    i := SecondOf(RunOf(cfg, tests, maxWorkers, now, labels).sched.verdicts, j);
  }

  lemma SecondOf(vs: seq<Verdict>, j: nat) returns (i: nat)
    requires Ordered(vs) && j < |vs| && vs[j].Late? && Excused(vs, j)
    ensures CountedTwice(vs, i, j)
  {
    i :| 0 <= i < j && vs[i].id == vs[j].id && (vs[i].Crashed? || vs[i].DispatchFailed?);
  }

  /** The result a read of the socket would yield. */
  ghost predicate AboutToRead(y: Sys, a: Answer, r: TestResult)
    requires y.sched.maxWorkers > 0
  {
    && Reading(y.sched, a) && a.avail == y.net.pipe && ReadFrame(y.net.pipe).Got?
    && y.net.got < |y.net.log| && r == y.net.log[y.net.got].result
  }

  /**
   In every run, reading the oldest unread result reports its test once more;
   the test had a finish event before exactly if its id is no longer active,
   and then the new one carries a made-up name.
   */
  lemma SecondReportIff(cfg: Config, tests: seq<RunnableTest>, maxWorkers: nat, now: nat, labels: seq<Label>,
                        a: Answer, forked: bool, r: TestResult)
    requires Startable(cfg, tests, maxWorkers)
    requires AboutToRead(RunOf(cfg, tests, maxWorkers, now, labels), a, r)
    ensures var y := RunOf(cfg, tests, maxWorkers, now, labels);
            var s, s', id := y.sched, Next(y, Supervisor(a, forked)).sched, r.testId;
            && id < |tests|
            && (HasVerdict(s.verdicts, id) <==> id !in s.active)
            && s'.verdicts == s.verdicts + [if id in s.active then Matched(id, r) else Late(id, r)]
            && s'.events == s.events + [ResultEvent(if id in s.active then tests[id].testName else LateName(id), r)]
  {
    RunInv(cfg, tests, maxWorkers, now, labels);
    TraceConfig(Boot(cfg, tests, maxWorkers, now), labels);
    ReadReports(RunOf(cfg, tests, maxWorkers, now, labels), a, forked, r);
  }

  lemma ReadReports(y: Sys, a: Answer, forked: bool, r: TestResult)
    requires Inv(y) && AboutToRead(y, a, r)
    ensures r.testId < |y.sched.tests|
    ensures HasVerdict(y.sched.verdicts, r.testId) <==> r.testId !in y.sched.active
    ensures Next(y, Supervisor(a, forked)).sched == Record(y.sched, r)
    ensures r.testId in y.sched.active ==> y.sched.active[r.testId].testName == y.sched.tests[r.testId].testName
  {
    Receives(y.net, y.sched.next);
    Unreported(y.sched, r.testId);
    ReadTakes(y, a, forked);
    ReadRecords(y.sched, a, r);
  }

  lemma ReadRecords(s: Sched, a: Answer, r: TestResult)
    requires s.maxWorkers > 0 && Reading(s, a) && Received(a.avail) == Some(r)
    ensures Step(s, a) == Record(s, r)
  {
    StepIs(s, a, Some(r));
  }

  lemma NothingRead(s: Sched, a: Answer)
    requires s.maxWorkers > 0 && s.pc.Waiting? && |s.active| >= s.maxWorkers && Received(a.avail) == None
    ensures Step(s, a) == s
  {
    StepIs(s, a, None);
  }

  lemma NothingReadSweeps(s: Sched, a: Answer)
    requires s.maxWorkers > 0 && s.pc.Draining? && Reading(s, a) && Received(a.avail) == None
    ensures Step(s, a) == Declare(s, StaleIds(s.active, FullOrder(a.order, s.next), a.later))
  {
    StepIs(s, a, None);
  }

  lemma StepIsDispatch(s: Sched, a: Answer)
    requires s.maxWorkers > 0 && Dispatching(s)
    ensures Step(s, a) == Dispatch(s, a)
  {}

  lemma ReadTakes(y: Sys, a: Answer, forked: bool)
    requires y.sched.maxWorkers > 0 && Reading(y.sched, a) && a.avail == y.net.pipe && ReadFrame(y.net.pipe).Got?
    ensures var y' := Next(y, Supervisor(a, forked)); y'.sched == Step(y.sched, a) && y'.net == Consume(y.net)
  {}

  /**
   At every step the counters agree with the finish events, the concurrency cap
   holds, and attempts plus late results are accounted for.
   */
  lemma Conservation(cfg: Config, tests: seq<RunnableTest>, maxWorkers: nat, now: nat, labels: seq<Label>)
    requires Startable(cfg, tests, maxWorkers)
    ensures var s := RunOf(cfg, tests, maxWorkers, now, labels).sched;
            && s.passed + s.failed == s.collected == |FinishEvents(s.events)|
            && |s.active| <= maxWorkers
            && s.collected + |s.active| == s.next + LateCount(s.verdicts)
            && FinishEvents(s.events) == VerdictEvents(s.tests, s.verdicts)
  {
    RunInv(cfg, tests, maxWorkers, now, labels);
    TraceConfig(Boot(cfg, tests, maxWorkers, now), labels);
  }

  lemma {:induction false} TraceConfig(y: Sys, labels: seq<Label>)
    requires y.sched.maxWorkers > 0
    ensures var y' := Trace(y, labels); y'.sched.maxWorkers == y.sched.maxWorkers && y'.sched.tests == y.sched.tests
  {
    if labels != [] {
      var k := |labels| - 1;
      TraceConfig(y, labels[..k]);
      NextConfig(Trace(y, labels[..k]), labels[k]);
    }
  }

  /**
   A run that returns before the deadline without a shutdown leaves unreported
   exactly the workers still active, at most as many as there were late
   results; without late results every test is reported exactly once.
   */
  lemma CompleteRun(cfg: Config, tests: seq<RunnableTest>, maxWorkers: nat, now: nat, labels: seq<Label>)
    requires Startable(cfg, tests, maxWorkers)
    requires var s := RunOf(cfg, tests, maxWorkers, now, labels).sched;
             s.pc.Done? && s.collected >= |tests| && SHUTDOWN !in s.events
    ensures var s := RunOf(cfg, tests, maxWorkers, now, labels).sched;
            && |s.active| <= LateCount(s.verdicts)
            && (forall id: u32 :: id < |tests| ==> (!HasVerdict(s.verdicts, id) <==> id in s.active))
            && (LateCount(s.verdicts) == 0 ==>
                  && s.passed + s.failed == |tests|
                  && (forall id: u32 :: id < |tests| ==> HasVerdict(s.verdicts, id))
                  && forall i, j :: 0 <= i < j < |s.verdicts| ==> s.verdicts[i].id != s.verdicts[j].id)
  {
    RunInv(cfg, tests, maxWorkers, now, labels);
    TraceConfig(Boot(cfg, tests, maxWorkers, now), labels);
    var s := RunOf(cfg, tests, maxWorkers, now, labels).sched;
    CompleteReturn(s);
    forall id: u32 | id < |tests|
      ensures !HasVerdict(s.verdicts, id) <==> id in s.active
    {
      Unreported(s, id);
    }
    if LateCount(s.verdicts) == 0 {
      NoLate(s.verdicts);
    }
  }

  lemma {:induction false} NoLate(vs: seq<Verdict>)
    requires LateCount(vs) == 0
    ensures forall i :: 0 <= i < |vs| ==> !vs[i].Late?
  {
    if vs != [] {
      NoLate(vs[..|vs| - 1]);
    }
  }

  /**
   Every reported result is the one its own worker produced for the payload
   built for that test, and results are reported in the order they were queued.
   */
  lemma ResultsIntact(cfg: Config, tests: seq<RunnableTest>, maxWorkers: nat, now: nat, labels: seq<Label>)
    requires Startable(cfg, tests, maxWorkers)
    ensures var y := RunOf(cfg, tests, maxWorkers, now, labels);
            && y.net.got <= |y.net.log|
            && Results(y.sched.verdicts) == ResultsOf(y.net.log[..y.net.got])
            && forall i :: 0 <= i < |y.net.log| ==>
                 var id := y.net.log[i].result.testId;
                 && id in y.net.workers && id < |y.sched.tests|
                 && y.net.workers[id].result == Some(y.net.log[i].result)
                 && y.net.workers[id].payload == PayloadAt(cfg, y.sched, id)
                 && y.net.log[i].frame == FrameOf(y.net.log[i].result)
  {
    RunInv(cfg, tests, maxWorkers, now, labels);
    var y := RunOf(cfg, tests, maxWorkers, now, labels);
    CfgKept(Boot(cfg, tests, maxWorkers, now), labels);
    forall i | 0 <= i < |y.net.log|
      ensures Owned(y.net.log[i], y.net.workers) && Complete(y.net.log[i])
    {}
  }

  lemma {:induction false} CfgKept(y: Sys, labels: seq<Label>)
    requires y.sched.maxWorkers > 0
    ensures Trace(y, labels).cfg == y.cfg
  {
    if labels != [] {
      var k := |labels| - 1;
      CfgKept(y, labels[..k]);
      NextConfig(Trace(y, labels[..k]), labels[k]);
    }
  }

  // ---------------------------------------------------------- the byte stream

  /** Read frame after frame until no complete one is left. */
  function ParseAll(bs: seq<byte>): seq<Option<TestResult>>
    decreases |bs|
  {
    match ReadFrame(bs)
    case Bad => []
    case Got(body, rest) => [DecodeResult(body)] + ParseAll(rest)
  }

  ghost predicate ParsesTo(parsed: seq<Option<TestResult>>, qs: seq<Queued>) {
    |parsed| <= |qs| && forall i :: 0 <= i < |parsed| ==> parsed[i] == Some(qs[i].result)
  }

  lemma FirstFrame(q: Queued, tail: seq<byte>, bs: seq<byte>)
    requires Complete(q) && bs <= q.frame + tail
    ensures ReadFrame(bs).Got? ==>
              DecodeResult(ReadFrame(bs).value) == Some(q.result) && bs == q.frame + ReadFrame(bs).rest
    ensures bs == q.frame + tail ==> ReadFrame(bs).Got?
  {
    ReadFrameInverts(EncodeResult(q.result), tail);
    if ReadFrame(bs).Got? {
      ReadPrefix(EncodeResult(q.result), tail, bs);
      ResultRoundTrip(q.result);
    }
  }

  lemma ParseSnoc(q: Queued, parsed: seq<Option<TestResult>>, qs: seq<Queued>)
    requires qs != [] && q == qs[0] && ParsesTo(parsed, qs[1..])
    ensures ParsesTo([Some(q.result)] + parsed, qs)
  {}

  lemma CompleteTail(qs: seq<Queued>, k: nat)
    requires AllComplete(qs) && k <= |qs|
    ensures AllComplete(qs[k..])
  {}

  /** A cut-off stream of complete frames parses to a prefix of the results, an uncut one to all. */
  lemma {:induction false} PrefixParses(bs: seq<byte>, qs: seq<Queued>)
    requires AllComplete(qs) && bs <= Frames(qs)
    ensures ParsesTo(ParseAll(bs), qs)
    ensures bs == Frames(qs) ==> |ParseAll(bs)| == |qs|
    decreases |qs|
  {
    if qs != [] {
      var tail := Frames(qs[1..]);
      FirstFrame(qs[0], tail, bs);
      if ReadFrame(bs).Got? {
        DropFrame(qs[0].frame, ReadFrame(bs).rest, tail);
        CompleteTail(qs, 1);
        PrefixParses(ReadFrame(bs).rest, qs[1..]);
        ParseSnoc(qs[0], ParseAll(ReadFrame(bs).rest), qs);
      }
    }
  }

  lemma DropFrame(f: seq<byte>, rest: seq<byte>, tail: seq<byte>)
    requires f + rest <= f + tail
    ensures rest <= tail && (f + rest == f + tail ==> rest == tail)
  {
    assert (f + rest)[|f|..] == rest && (f + tail)[|f|..] == tail;
    assert (f + tail)[..|f| + |rest|][|f|..] == tail[..|rest|];
  }

  /** Two streams of complete frames with the same bytes carry the same results. */
  lemma StreamUnique(a: seq<Queued>, b: seq<Queued>)
    requires AllComplete(a) && AllComplete(b) && Frames(a) == Frames(b)
    ensures ResultsOf(a) == ResultsOf(b)
  {
    PrefixParses(Frames(a), a);
    PrefixParses(Frames(b), b);
    forall i | 0 <= i < |a|
      ensures a[i].result == b[i].result
    {
      assert ParseAll(Frames(a))[i] == Some(a[i].result);
    }
  }

  /**
   For any interleaving, the unread bytes of the result socket parse into the
   oldest unread results; when the forwarder is idle, into all of them.
   */
  lemma SocketParses(cfg: Config, tests: seq<RunnableTest>, maxWorkers: nat, now: nat, labels: seq<Label>)
    requires Startable(cfg, tests, maxWorkers)
    ensures var n := RunOf(cfg, tests, maxWorkers, now, labels).net;
            && n.got <= |n.log|
            && ParsesTo(ParseAll(n.pipe), n.log[n.got..])
            && (n.up && n.writing == [] && n.channel == [] ==> |ParseAll(n.pipe)| == |n.log| - n.got)
  {
    RunInv(cfg, tests, maxWorkers, now, labels);
    var y := RunOf(cfg, tests, maxWorkers, now, labels);
    NetParses(y.net, y.sched.next);
  }

  lemma NetParses(n: Net, next: nat)
    requires NetOk(n, next)
    ensures ParsesTo(ParseAll(n.pipe), n.log[n.got..])
    ensures n.up && n.writing == [] && n.channel == [] ==> |ParseAll(n.pipe)| == |n.log| - n.got
  {
    var pending := n.log[n.got..];
    assert n.pipe <= Frames(pending);
    CompleteTail(n.log, n.got);
    PrefixParses(n.pipe, pending);
    if n.up && n.writing == [] && n.channel == [] {
      assert n.pipe + ([] + Concat([])) == n.pipe;
    }
  }

  /** The JUnit report of a finished run has a case per verdict, in order, and counts its own cases. */
  lemma JunitAgrees(cfg: Config, tests: seq<RunnableTest>, maxWorkers: nat, now: nat, labels: seq<Label>)
    requires Startable(cfg, tests, maxWorkers)
    requires RunOf(cfg, tests, maxWorkers, now, labels).sched.pc.Done?
    ensures var s := RunOf(cfg, tests, maxWorkers, now, labels).sched;
            var report := JunitAfter(s.events).report;
            && report.Some?
            && CasesOf(report.value.cases, VerdictEvents(s.tests, s.verdicts))
            && report.value.tests == |report.value.cases| == s.collected
            && report.value.failures == Failing(report.value.cases) == s.failed
  {
    RunInv(cfg, tests, maxWorkers, now, labels);
    var answers := SchedulerFollowsMachine(cfg, tests, maxWorkers, now, labels);
    RunReflected(tests, maxWorkers, now, answers);
  }

  ghost predicate IsPass(v: Verdict) { IsResult(v) && v.result.status == STATUS_PASS }

  lemma CaseFails(tests: seq<RunnableTest>, v: Verdict)
    ensures var e := VerdictEvent(tests, v);
            CaseOf(e.id, e.status, e.durationMs, e.message).failure.Some? <==> !IsPass(v)
  {
    assert "pass"[0] == 'p' && "fail"[0] == 'f';
  }

  /**
   The report of a finished run knows passes and failures only: a case carries a
   failure exactly if its verdict is not a result of status 0, so a skipped test
   (status 2) is among the failures, and none is ever counted as skipped.
   */
  lemma SkippedCountAsFailed(cfg: Config, tests: seq<RunnableTest>, maxWorkers: nat, now: nat, labels: seq<Label>)
    requires Startable(cfg, tests, maxWorkers)
    requires RunOf(cfg, tests, maxWorkers, now, labels).sched.pc.Done?
    ensures var s := RunOf(cfg, tests, maxWorkers, now, labels).sched;
            var report := JunitAfter(s.events).report;
            && report.Some? && report.value.skipped == 0 && |report.value.cases| == |s.verdicts|
            && forall i :: 0 <= i < |s.verdicts| ==>
                 && (report.value.cases[i].failure.Some? <==> !IsPass(s.verdicts[i]))
                 && (IsResult(s.verdicts[i]) && s.verdicts[i].result.status == STATUS_SKIP ==> report.value.cases[i].failure.Some?)
  {
    RunInv(cfg, tests, maxWorkers, now, labels);
    JunitAgrees(cfg, tests, maxWorkers, now, labels);
    var s := RunOf(cfg, tests, maxWorkers, now, labels).sched;
    CasesFail(JunitAfter(s.events).report.value.cases, s.tests, s.verdicts);
  }

  lemma CasesFail(cases: seq<Case>, tests: seq<RunnableTest>, vs: seq<Verdict>)
    requires CasesOf(cases, VerdictEvents(tests, vs))
    ensures |cases| == |vs| && forall i :: 0 <= i < |vs| ==> (cases[i].failure.Some? <==> !IsPass(vs[i]))
  {
    forall i | 0 <= i < |vs|
      ensures cases[i].failure.Some? <==> !IsPass(vs[i])
    {
      CaseFails(tests, vs[i]);
    }
  }
}
