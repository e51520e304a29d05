/** What every run of the scheduler keeps, whatever its environment answers. */
module SchedulerLaws {
  import opened Wire
  import opened Resolver
  import opened Reporting
  import opened SchedulerMachine

  // ---------------------------------------------------------------- the laws

  function NameOf(tests: seq<RunnableTest>, id: u32): string {
    if id < |tests| then tests[id].testName else ""
  }

  /** The finish event a verdict is reported by. */
  function VerdictEvent(tests: seq<RunnableTest>, v: Verdict): (e: MachineEvent)
    ensures e.TestFinished?
  {
    match v
    case Matched(id, r) => ResultEvent(NameOf(tests, id), r)
    case Late(id, r) => ResultEvent(LateName(id), r)
    case Crashed(id) => CrashEvent(NameOf(tests, id))
    case DispatchFailed(id, error) => TestFinished(NameOf(tests, id), "fail", 0, Some(error))
  }

  function VerdictEvents(tests: seq<RunnableTest>, vs: seq<Verdict>): (es: seq<MachineEvent>)
    ensures |es| == |vs|
    ensures forall i :: 0 <= i < |vs| ==> es[i] == VerdictEvent(tests, vs[i])
  {
    if vs == [] then [] else VerdictEvents(tests, vs[..|vs| - 1]) + [VerdictEvent(tests, vs[|vs| - 1])]
  }

  function FinishEvents(events: seq<MachineEvent>): seq<MachineEvent> {
    if events == [] then []
    else
      var k := |events| - 1;
      FinishEvents(events[..k]) + if events[k].TestFinished? then [events[k]] else []
  }

  function LateCount(vs: seq<Verdict>): (n: nat)
    ensures n <= |vs|
  {
    if vs == [] then 0 else LateCount(vs[..|vs| - 1]) + if vs[|vs| - 1].Late? then 1 else 0
  }

  ghost predicate Tally(s: Sched) {
    s.passed + s.failed == s.collected == |s.verdicts|
  }

  /** The finish events are the verdicts, in order, under the right names. */
  ghost predicate Named(s: Sched) {
    FinishEvents(s.events) == VerdictEvents(s.tests, s.verdicts)
  }

  ghost predicate Bounds(s: Sched) {
    && s.next <= |s.tests| <= 0x1_0000_0000
    && |s.active| <= s.maxWorkers
    && (s.pc.Waiting? ==> s.next < |s.tests|)
    && forall id :: id in s.active ==> id < s.next && s.active[id].testName == s.tests[id].testName
  }

  /** Dispatch attempts plus late results are either collected or still active. */
  ghost predicate Balance(s: Sched) {
    s.collected + |s.active| == s.next + LateCount(s.verdicts)
  }

  /** Before the end a JUnit reporter holds one case per verdict, a failure per failed test. */
  ghost predicate Buffered(s: Sched) {
    var j := JunitAfter(s.events);
    |j.cases| == s.collected && Failing(j.cases) == s.failed && j.report.None?
  }

  /** At the end it has written them, with totals that agree. */
  ghost predicate Reported(s: Sched) {
    var j := JunitAfter(s.events);
    && j.report.Some?
    && var suite := j.report.value;
       && suite.tests == |suite.cases| == s.collected
       && suite.failures == Failing(suite.cases) == s.failed
       && suite.skipped == 0 && suite.errors == 0
  }

  const SHUTDOWN: MachineEvent := Error("Shutdown requested")

  /** Dispatching stops early only for a shutdown request. */
  ghost predicate Stopped(s: Sched) {
    s.pc.Draining? || s.pc.Done? ==> s.next == |s.tests| || SHUTDOWN in s.events
  }

  ghost predicate Laws(s: Sched) {
    && s.maxWorkers > 0
    && Tally(s) && Named(s) && Bounds(s) && Balance(s) && Stopped(s)
    && if s.pc.Done? then Reported(s) else Buffered(s)
  }

  // ------------------------------------------------------------- preservation

  lemma ReportKeeps(s: Sched, e: MachineEvent, v: Verdict)
    requires Tally(s) && Named(s) && Buffered(s)
    requires e == VerdictEvent(s.tests, v)
    ensures var s' := Report(s, e, v);
            && Tally(s') && Named(s') && Buffered(s')
            && LateCount(s'.verdicts) == LateCount(s.verdicts) + (if v.Late? then 1 else 0)
  {}

  lemma EmitKeeps(s: Sched, e: MachineEvent)
    requires Named(s) && Buffered(s)
    requires e.TestStart? || e.Error?
    ensures Named(Emit(s, e)) && Buffered(Emit(s, e))
  {}

  lemma RecordKeeps(s: Sched, r: TestResult)
    requires Laws(s) && !s.pc.Done?
    ensures Laws(Record(s, r))
  {
    if r.testId in s.active {
      var s1 := s.(active := s.active - {r.testId});
      RemoveOne(s.active, r.testId);
      ReportKeeps(s1, ResultEvent(s.active[r.testId].testName, r), Matched(r.testId, r));
    } else {
      ReportKeeps(s, ResultEvent(LateName(r.testId), r), Late(r.testId, r));
    }
  }

  lemma RemoveOne<V>(m: map<u32, V>, k: u32)
    requires k in m
    ensures |m - {k}| == |m| - 1
  {}

  lemma CrashKeeps(s: Sched, id: u32)
    requires Laws(s) && !s.pc.Done? && id in s.active
    ensures Laws(Report(s.(active := s.active - {id}), CrashEvent(s.active[id].testName), Crashed(id)))
  {
    RemoveOne(s.active, id);
    ReportKeeps(s.(active := s.active - {id}), CrashEvent(s.active[id].testName), Crashed(id));
  }

  lemma {:induction false} DeclareKeeps(s: Sched, ids: seq<u32>)
    requires Laws(s) && !s.pc.Done?
    ensures Laws(Declare(s, ids))
    decreases |ids|
  {
    if ids != [] && ids[0] in s.active {
      CrashKeeps(s, ids[0]);
      var s1 := Report(s.(active := s.active - {ids[0]}), CrashEvent(s.active[ids[0]].testName), Crashed(ids[0]));
      DeclareKeeps(s1, ids[1..]);
    }
  }

  /** The state between `on_test_start` and the fork: one attempt is not yet accounted for. */
  ghost predicate Attempting(s: Sched, id: u32) {
    && s.maxWorkers > 0 && s.pc.Top? && Tally(s) && Named(s) && Buffered(s) && Bounds(s)
    && s.collected + |s.active| + 1 == s.next + LateCount(s.verdicts)
    && id == s.next - 1 && id !in s.active
  }

  lemma StartKeeps(s: Sched)
    requires Laws(s) && s.pc.Waiting?
    ensures Attempting(Start(s), s.next)
  {}

  lemma ForkedKeeps(s: Sched, id: u32, w: ActiveWorker)
    requires Attempting(s, id) && |s.active| < s.maxWorkers && w.testName == s.tests[id].testName
    ensures Laws(Forked(s, id, w))
  {}

  lemma NotForkedKeeps(s: Sched, id: u32, error: string)
    requires Attempting(s, id)
    ensures Laws(NotForked(s, id, s.tests[id].testName, error))
  {
    ReportKeeps(s, TestFinished(s.tests[id].testName, "fail", 0, Some(error)), DispatchFailed(id, error));
  }

  lemma AttemptKeeps(s: Sched, id: u32, a: Answer)
    requires Attempting(s, id) && |s.active| < s.maxWorkers
    ensures var name := s.tests[id].testName;
            if a.dispatchError.None? then Laws(Forked(s, id, ActiveWorker(name, id % s.maxWorkers, a.now)))
            else Laws(NotForked(s, id, name, a.dispatchError.value))
  {
    if a.dispatchError.None? {
      ForkedKeeps(s, id, ActiveWorker(s.tests[id].testName, id % s.maxWorkers, a.now));
    } else {
      NotForkedKeeps(s, id, a.dispatchError.value);
    }
  }

  lemma DispatchKeeps(s: Sched, a: Answer)
    requires Laws(s) && s.pc.Waiting? && |s.active| < s.maxWorkers
    ensures Laws(Dispatch(s, a))
  {
    StartKeeps(s);
    assert TestId(s.next) == s.next;
    AttemptKeeps(Start(s), s.next, a);
  }

  lemma FinishKeeps(s: Sched, now: nat)
    requires Laws(s) && s.pc.Draining?
    ensures Laws(Finish(s, now))
  {}

  lemma TopKeeps(s: Sched, a: Answer)
    requires Laws(s) && s.pc.Top?
    ensures Laws(StepOn(s, a, None, []))
  {
    if s.next < |s.tests| && a.shutdown {
      EmitKeeps(s, SHUTDOWN);
      assert (s.events + [SHUTDOWN])[|s.events|] == SHUTDOWN;
    }
  }

  lemma StepKeeps(s: Sched, a: Answer, got: Option<TestResult>, stale: seq<u32>)
    requires Laws(s)
    ensures Laws(StepOn(s, a, got, stale))
  {
    match s.pc
    case Top => TopKeeps(s, a);
    case Waiting =>
      if |s.active| >= s.maxWorkers {
        if got.Some? {
          RecordKeeps(s, got.value);
        }
      } else {
        DispatchKeeps(s, a);
      }
    case Draining(deadline) =>
      if s.collected < |s.tests| && a.now < deadline {
        if got.Some? {
          RecordKeeps(s, got.value);
        } else {
          DeclareKeeps(s, stale);
        }
      } else {
        FinishKeeps(s, a.now);
      }
    case Done =>
  }

  lemma InitLaws(tests: seq<RunnableTest>, maxWorkers: nat, now: nat)
    requires maxWorkers > 0 && |tests| <= 0x1_0000_0000
    ensures Laws(Init(tests, maxWorkers, now))
  {}

  // ------------------------------------------------------------- main results

  /** Every state of every run satisfies the laws. */
  lemma {:induction false} RunKeepsLaws(tests: seq<RunnableTest>, maxWorkers: nat, now: nat, answers: seq<Answer>)
    requires maxWorkers > 0 && |tests| <= 0x1_0000_0000
    ensures Laws(Exec(Init(tests, maxWorkers, now), answers))
  {
    var s0 := Init(tests, maxWorkers, now);
    if answers == [] {
      InitLaws(tests, maxWorkers, now);
    } else {
      var k := |answers| - 1;
      RunKeepsLaws(tests, maxWorkers, now, answers[..k]);
      var s, a := Exec(s0, answers[..k]), answers[k];
      StepKeeps(s, a, Received(a.avail), StaleIds(s.active, FullOrder(a.order, s.next), a.later));
    }
  }

  /**
   A run that ends with everything collected and no shutdown leaves at most as
   many workers unaccounted for as there were late results; with none, every
   test has been counted.
   */
  lemma CompleteReturn(s: Sched)
    requires Laws(s) && s.pc.Done?
    requires s.collected >= |s.tests| && SHUTDOWN !in s.events
    ensures |s.active| <= LateCount(s.verdicts)
    ensures LateCount(s.verdicts) == 0 ==> s.active == map[] && s.passed + s.failed == |s.tests|
  {}
}
