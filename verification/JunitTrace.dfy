/** The JUnit cases of a run are its finish events, one by one. */
module JunitTrace {
  import opened Wire
  import opened Resolver
  import opened Reporting
  import opened SchedulerMachine
  import opened SchedulerLaws

  /** One case per finish event, in order. */
  ghost predicate CasesOf(cases: seq<Case>, finished: seq<MachineEvent>) {
    && |cases| == |finished|
    && forall i :: 0 <= i < |cases| ==>
         var e := finished[i];
         e.TestFinished? && cases[i] == CaseOf(e.id, e.status, e.durationMs, e.message)
  }

  /** The reporter holds the cases of the trace; once it is `done` it has written them. */
  ghost predicate Reflected(events: seq<MachineEvent>, done: bool) {
    var j := JunitAfter(events);
    if done then j.report.Some? && CasesOf(j.report.value.cases, FinishEvents(events))
    else CasesOf(j.cases, FinishEvents(events))
  }

  lemma EmitReflected(events: seq<MachineEvent>, e: MachineEvent)
    requires Reflected(events, false) && !e.RunStart?
    ensures Reflected(events + [e], e.RunFinished?)
  {
    JunitSnoc(events, e);
    assert (events + [e])[..|events|] == events;
  }

  lemma RecordReflected(s: Sched, r: TestResult)
    requires Reflected(s.events, false)
    ensures Reflected(Record(s, r).events, false)
  {
    EmitReflected(s.events, Record(s, r).events[|s.events|]);
  }

  lemma {:induction false} DeclareReflected(s: Sched, ids: seq<u32>)
    requires Reflected(s.events, false)
    ensures Reflected(Declare(s, ids).events, false)
    decreases |ids|
  {
    if ids != [] && ids[0] in s.active {
      var s1 := Report(s.(active := s.active - {ids[0]}), CrashEvent(s.active[ids[0]].testName), Crashed(ids[0]));
      EmitReflected(s.events, CrashEvent(s.active[ids[0]].testName));
      DeclareReflected(s1, ids[1..]);
    }
  }

  lemma DispatchReflected(s: Sched, a: Answer)
    requires s.next < |s.tests| && s.maxWorkers > 0 && Reflected(s.events, false)
    ensures Reflected(Dispatch(s, a).events, false)
  {
    var test := s.tests[s.next];
    EmitReflected(s.events, TestStart(test.testName, test.filePath));
    if a.dispatchError.Some? {
      EmitReflected(Start(s).events, TestFinished(test.testName, "fail", 0, Some(a.dispatchError.value)));
    }
  }

  lemma DrainReflected(s: Sched, got: Option<TestResult>, stale: seq<u32>)
    requires Reflected(s.events, false)
    ensures var s' := DrainOnce(s, got, stale); s'.pc == s.pc && Reflected(s'.events, false)
  {
    DrainOncePc(s, got, stale);
    if got.Some? {
      RecordReflected(s, got.value);
    } else {
      DeclareReflected(s, stale);
    }
  }

  lemma StepReflected(s: Sched, a: Answer, got: Option<TestResult>, stale: seq<u32>)
    requires s.maxWorkers > 0 && Reflected(s.events, s.pc.Done?)
    ensures var s' := StepOn(s, a, got, stale); Reflected(s'.events, s'.pc.Done?)
  {
    match s.pc
    case Top => EmitReflected(s.events, SHUTDOWN);
    case Waiting =>
      if |s.active| >= s.maxWorkers {
        if got.Some? {
          RecordReflected(s, got.value);
        }
      } else if s.next < |s.tests| {
        DispatchReflected(s, a);
      }
    case Draining(deadline) =>
      if s.collected < |s.tests| && a.now < deadline {
        DrainReflected(s, got, stale);
      } else {
        EmitReflected(s.events, Finish(s, a.now).events[|s.events|]);
      }
    case Done =>
  }

  /** For every run: the cases buffered, at the end written, are the finish events so far. */
  lemma {:induction false} RunReflected(tests: seq<RunnableTest>, maxWorkers: nat, now: nat, answers: seq<Answer>)
    requires maxWorkers > 0
    ensures var s := Exec(Init(tests, maxWorkers, now), answers); Reflected(s.events, s.pc.Done?)
  {
    if answers == [] {
      assert Init(tests, maxWorkers, now).events == [] + [RunStart(|tests|)];
      JunitSnoc([], RunStart(|tests|));
    } else {
      var k := |answers| - 1;
      RunReflected(tests, maxWorkers, now, answers[..k]);
      var s, a := Exec(Init(tests, maxWorkers, now), answers[..k]), answers[k];
      StepReflected(s, a, Received(a.avail), StaleIds(s.active, FullOrder(a.order, s.next), a.later));
    }
  }
}
