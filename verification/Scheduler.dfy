/** The scheduler as the source runs it: nested loops over mutable state, proved to follow the machine. */
module Scheduler {
  import opened Wire
  import opened Resolver
  import opened Reporting
  import opened SchedulerMachine
  import opened SchedulerLaws

  datatype SchedulerStats = SchedulerStats(total: nat, passed: nat, failed: nat, durationMs: nat)

  /** What a collected result is reported as. */
  datatype Collected = Collected(name: string, status: string, durationMs: nat, message: Option<string>)

  function Reportable(active: map<u32, ActiveWorker>, got: Option<TestResult>): Option<Collected> {
    match got
    case None => None
    case Some(r) =>
      var name := if r.testId in active then active[r.testId].testName else LateName(r.testId);
      Some(Collected(name, Status(r), r.durationNs / 1_000_000, Message(r)))
  }

  function Remaining(active: map<u32, ActiveWorker>, got: Option<TestResult>): map<u32, ActiveWorker> {
    if got.Some? then active - {got.value.testId} else active
  }

  lemma StaleFirst(active: map<u32, ActiveWorker>, order: seq<u32>, i: nat, now: nat)
    requires i < |order|
    ensures StaleIds(active, order[i..], now) ==
            if order[i] in active && now > active[order[i]].startTime + STALE_MS
            then [order[i]] + StaleIds(active - {order[i]}, order[i + 1..], now)
            else StaleIds(active, order[i + 1..], now)
  {
    assert order[i..][1..] == order[i + 1..];
  }

  /** What the machine's collect does to the fields. */
  lemma CollectShape(s: Sched, got: Option<TestResult>)
    ensures var s', c := Collect(s, got), Reportable(s.active, got);
            && s'.active == Remaining(s.active, got) && s'.next == s.next && s'.pc == s.pc
            && (c.None? ==> s' == s)
            && (c.Some? ==>
                  && s'.events == s.events + [TestFinished(c.value.name, c.value.status, c.value.durationMs, c.value.message)]
                  && s'.collected == s.collected + 1
                  && s'.passed == s.passed + (if c.value.status == "pass" then 1 else 0)
                  && s'.failed == s.failed + (if c.value.status == "pass" then 0 else 1))
  {}

  /**
   `answers` scripts the environment; a run that uses it up is cut off there, so
   all scripts together give every beginning of every run. The counters are
   local to `run` in the source.
   */
  class Scheduler {
    const tests: seq<RunnableTest>
    const maxWorkers: nat
    const startTime: nat
    const answers: seq<Answer>
    const reporter: MultiReporter
    var asked: nat
    var dispatched: nat
    var deadline: nat
    var durationMs: nat
    var activeWorkers: map<u32, ActiveWorker>
    var passed: nat
    var failed: nat
    var collected: nat
    ghost var model: Sched

    ghost predicate Intact()
      reads this, reporter, reporter.Owned()
    {
      && maxWorkers > 0 && asked <= |answers| && |tests| <= 0x1_0000_0000
      && this !in reporter.Owned() && reporter.Valid()
    }

    /** The fields show the machine's state. */
    ghost predicate Shows(s: Sched)
      reads this, reporter
    {
      && activeWorkers == s.active && passed == s.passed && failed == s.failed && collected == s.collected
      && dispatched == s.next && (s.pc.Draining? ==> deadline == s.pc.deadline)
      && reporter.seen == s.events
    }

    /** The machine, run on the answers consumed so far, is what the fields show. */
    ghost predicate Valid()
      reads this, reporter, reporter.Owned()
    {
      && Intact() && Shows(model)
      && model == Exec(Init(tests, maxWorkers, startTime), answers[..asked])
      && model.tests == tests && model.maxWorkers == maxWorkers && model.startTime == startTime && Steady(model)
    }

    /** A new scheduler and a fresh reporter for each session. */
    constructor (tests: seq<RunnableTest>, maxWorkers: nat, startTime: nat, answers: seq<Answer>, reporter: MultiReporter)
      requires maxWorkers > 0 && |tests| <= 0x1_0000_0000
      requires reporter.Valid() && reporter.seen == []
      modifies reporter, reporter.Owned()
      ensures Valid() && asked == 0
      ensures this.tests == tests && this.maxWorkers == maxWorkers && this.startTime == startTime
      ensures this.answers == answers && this.reporter == reporter
    {
      this.tests, this.maxWorkers, this.startTime := tests, maxWorkers, startTime;
      this.answers, this.reporter := answers, reporter;
      asked, dispatched, deadline, durationMs, activeWorkers, passed, failed, collected := 0, 0, 0, 0, map[], 0, 0, 0;
      model := Init(tests, maxWorkers, startTime);
      new;
      reporter.Broadcast(RunStart(|tests|));
    }

    /** The fields show `s`, and the machine has already stepped to `s'`. */
    ghost predicate Stepping(s: Sched, s': Sched)
      reads this, reporter, reporter.Owned()
    {
      && Intact() && Shows(s) && model == s'
      && model == Exec(Init(tests, maxWorkers, startTime), answers[..asked])
      && model.tests == tests && model.maxWorkers == maxWorkers && model.startTime == startTime && Steady(model)
    }

    /** Consume one answer; the machine steps, the fields follow in the caller. */
    method Ask() returns (a: Answer)
      requires Valid() && asked < |answers|
      modifies this`asked, this`model
      ensures asked == old(asked) + 1 && a == answers[old(asked)]
      ensures Stepping(old(model), Step(old(model), a))
    {
      a := answers[asked];
      StepSteady(model, a, Received(a.avail), StaleIds(model.active, FullOrder(a.order, model.next), a.later));
      StepConfig(model, a);
      assert answers[..asked + 1][..asked] == answers[..asked];
      model := Step(model, a);
      asked := asked + 1;
    }

    method AskTop() returns (a: Answer)
      requires Valid() && asked < |answers| && model.pc.Top?
      modifies this`asked, this`model
      ensures asked == old(asked) + 1
      ensures var s := old(model);
              Stepping(s, if s.next >= |tests| then Drain(s, a.now)
                          else if a.shutdown then Drain(Emit(s, SHUTDOWN), a.now)
                          else s.(pc := Waiting))
    {
      a := Ask();
    }

    method AskCapacity() returns (a: Answer)
      requires Valid() && asked < |answers| && model.pc.Waiting? && |activeWorkers| >= maxWorkers
      modifies this`asked, this`model
      ensures asked == old(asked) + 1
      ensures Stepping(old(model), Collect(old(model), Received(a.avail)))
    {
      a := Ask();
    }

    method AskFork() returns (a: Answer)
      requires Valid() && asked < |answers| && model.pc.Waiting? && |activeWorkers| < maxWorkers
      modifies this`asked, this`model
      ensures asked == old(asked) + 1
      ensures Stepping(old(model), Dispatch(old(model), a))
    {
      a := Ask();
    }

    method AskDrain() returns (a: Answer)
      requires Valid() && asked < |answers| && model.pc.Draining?
      modifies this`asked, this`model
      ensures asked == old(asked) + 1
      ensures var s := old(model);
              Stepping(s, if collected < |tests| && a.now < deadline
                          then DrainOnce(s, Received(a.avail), StaleIds(s.active, FullOrder(a.order, s.next), a.later))
                          else Finish(s, a.now))
    {
      a := Ask();
    }

    /** `on_test_finished` and the counters. */
    method Count(name: string, status: string, durationMs: nat, message: Option<string>)
      requires Intact()
      modifies this`passed, this`failed, this`collected, reporter, reporter.Owned()
      ensures Intact()
      ensures reporter.seen == old(reporter.seen) + [TestFinished(name, status, durationMs, message)]
      ensures collected == old(collected) + 1
      ensures passed == old(passed) + (if status == "pass" then 1 else 0)
      ensures failed == old(failed) + (if status == "pass" then 0 else 1)
    {
      reporter.Broadcast(TestFinished(name, status, durationMs, message));
      if status == "pass" {
        passed := passed + 1;
      } else {
        failed := failed + 1;
      }
      collected := collected + 1;
    }

    /** Take the result's worker out of the active set, or make up a name for it. */
    method TryCollect(avail: seq<byte>) returns (c: Option<Collected>)
      modifies this`activeWorkers
      ensures activeWorkers == Remaining(old(activeWorkers), Received(avail))
      ensures c == Reportable(old(activeWorkers), Received(avail))
    {
      match ReadFrame(avail)
      case Bad => return None;
      case Got(body, _) =>
        match DecodeResult(body)
        case None => return None;
        case Some(r) =>
          var name := LateName(r.testId);
          if r.testId in activeWorkers {
            name := activeWorkers[r.testId].testName;
          }
          activeWorkers := activeWorkers - {r.testId};
          return Some(Collected(name, if r.status == STATUS_PASS then "pass" else "fail",
                                r.durationNs / 1_000_000, if r.message == "" then None else Some(r.message)));
    }

    /** One collect attempt and what it reports; says whether a result came. */
    method CollectOnce(avail: seq<byte>, ghost s: Sched) returns (ok: bool)
      requires Intact() && Shows(s)
      modifies this`activeWorkers, this`passed, this`failed, this`collected, reporter, reporter.Owned()
      ensures Intact() && ok == Received(avail).Some?
      ensures Shows(Collect(s, Received(avail)))
    {
      ghost var got := Received(avail);
      var c := TryCollect(avail);
      CollectShape(s, got);
      ok := c.Some?;
      if ok {
        Count(c.value.name, c.value.status, c.value.durationMs, c.value.message);
      }
    }

    /** Wait until a slot is free; `false` when the script ends first. */
    method AwaitCapacity() returns (ok: bool)
      requires Valid() && model.pc.Waiting?
      modifies this, reporter, reporter.Owned()
      ensures Valid() && model.pc.Waiting? && dispatched == old(dispatched)
      ensures if ok then |activeWorkers| < maxWorkers else asked == |answers|
    {
      while |activeWorkers| >= maxWorkers
        invariant Valid() && model.pc.Waiting? && dispatched == old(dispatched)
        decreases |answers| - asked
      {
        if asked == |answers| {
          return false;
        }
        ghost var s := model;
        var a := AskCapacity();
        var got := CollectOnce(a.avail, s);
      }
      ok := true;
    }

    /** Start and fork the next test. */
    method DispatchTest()
      requires Valid() && model.pc.Waiting? && |activeWorkers| < maxWorkers && asked < |answers|
      modifies this, reporter, reporter.Owned()
      ensures Valid() && model.pc.Top?
      ensures asked == old(asked) + 1 && dispatched == old(dispatched) + 1
    {
      var a := AskFork();
      var test, id := tests[dispatched], TestId(dispatched);
      reporter.Broadcast(TestStart(test.testName, test.filePath));
      match a.dispatchError {
        case None =>
          activeWorkers := activeWorkers[id := ActiveWorker(test.testName, id % maxWorkers, a.now)];
        case Some(e) =>
          Count(test.testName, "fail", 0, Some(e));
      }
      dispatched := dispatched + 1;
    }

    /** Dispatch every test, or stop at a shutdown request; `false` when the script ends first. */
    method DispatchAll() returns (ok: bool)
      requires Valid() && model.pc.Top?
      modifies this, reporter, reporter.Owned()
      ensures Valid()
      ensures if ok then model.pc.Draining? else asked == |answers| && !model.pc.Done?
    {
      while dispatched < |tests|
        invariant Valid() && model.pc.Top?
        decreases |tests| - dispatched
      {
        if asked == |answers| {
          return false;
        }
        var a := AskTop();
        if a.shutdown {
          reporter.Broadcast(SHUTDOWN);
          deadline := a.now + DRAIN_MS;
          return true;
        }
        ok := AwaitCapacity();
        if !ok || asked == |answers| {
          return false;
        }
        DispatchTest();
      }
      if asked == |answers| {
        return false;
      }
      var a := AskTop();
      deadline := a.now + DRAIN_MS;
      ok := true;
    }

    /** The stale workers, in the iteration order of the map. */
    method GetStaleWorkers(order: seq<u32>, now: nat) returns (stale: seq<u32>)
      ensures stale == StaleIds(activeWorkers, order, now)
    {
      stale := [];
      var left := activeWorkers;
      for i := 0 to |order|
        invariant stale + StaleIds(left, order[i..], now) == StaleIds(activeWorkers, order, now)
      {
        StaleFirst(left, order, i, now);
        if order[i] in left && now > left[order[i]].startTime + STALE_MS {
          Assoc(stale, [order[i]], StaleIds(left - {order[i]}, order[i + 1..], now));
          stale := stale + [order[i]];
          left := left - {order[i]};
        }
      }
    }

    /** Report the stale workers as crashed. */
    method DeclareCrashed(stale: seq<u32>, ghost s: Sched)
      requires Intact() && Shows(s)
      requires forall i :: 0 <= i < |stale| ==> stale[i] in activeWorkers
      requires forall i, j :: 0 <= i < j < |stale| ==> stale[i] != stale[j]
      modifies this`activeWorkers, this`passed, this`failed, this`collected, reporter, reporter.Owned()
      ensures Intact() && Shows(Declare(s, stale))
    {
      ghost var cur := s;
      for i := 0 to |stale|
        invariant Intact() && Shows(cur) && Declare(cur, stale[i..]) == Declare(s, stale)
        invariant forall j :: i <= j < |stale| ==> stale[j] in activeWorkers
      {
        var id := stale[i];
        assert stale[i..][1..] == stale[i + 1..];
        cur := Report(cur.(active := cur.active - {id}), CrashEvent(cur.active[id].testName), Crashed(id));
        Count(activeWorkers[id].testName, "fail", 0, Some("CRASHED - no response"));
        activeWorkers := activeWorkers - {id};
      }
    }

    /** The final event carries the counters and the elapsed time the caller gets. */
    ghost predicate Announced()
      reads this
    {
      model.events != [] && model.events[|model.events| - 1] == RunFinished(passed, failed, 0, durationMs)
    }

    /** Collect what is still outstanding, until everything is counted or the deadline passes. */
    method DrainAll() returns (ok: bool)
      requires Valid() && model.pc.Draining?
      modifies this, reporter, reporter.Owned()
      ensures Valid()
      ensures if ok then model.pc.Done? && Announced() else asked == |answers| && model.pc.Draining?
    {
      while true
        invariant Valid() && model.pc.Draining?
        decreases |answers| - asked
      {
        if asked == |answers| {
          return false;
        }
        ok := DrainStep();
        if ok {
          return;
        }
      }
    }

    method DrainStep() returns (done: bool)
      requires Valid() && model.pc.Draining? && asked < |answers|
      modifies this, reporter, reporter.Owned()
      ensures Valid() && asked == old(asked) + 1
      ensures if done then model.pc.Done? && Announced() else model.pc.Draining?
    {
      ghost var s := model;
      var a := AskDrain();
      done := !(collected < |tests| && a.now < deadline);
      if done {
        FinishRun(a.now, s);
      } else {
        DrainOncePc(s, Received(a.avail), StaleIds(s.active, FullOrder(a.order, s.next), a.later));
        CollectOrSweep(a, s);
      }
    }

    method FinishRun(now: nat, ghost s: Sched)
      requires Intact() && Shows(s) && s.startTime == startTime
      modifies this`durationMs, reporter, reporter.Owned()
      ensures Intact() && Shows(Finish(s, now))
      ensures Finish(s, now).events == s.events + [RunFinished(passed, failed, 0, durationMs)]
    {
      durationMs := if now < startTime then 0 else now - startTime;
      reporter.Broadcast(RunFinished(passed, failed, 0, durationMs));
    }

    /** A result, or else a look at the workers that have been silent for too long. */
    method CollectOrSweep(a: Answer, ghost s: Sched)
      requires Intact() && Shows(s)
      modifies this`activeWorkers, this`passed, this`failed, this`collected, reporter, reporter.Owned()
      ensures Intact()
      ensures Shows(DrainOnce(s, Received(a.avail), StaleIds(s.active, FullOrder(a.order, s.next), a.later)))
    {
      var got := CollectOnce(a.avail, s);
      if !got {
        var stale := GetStaleWorkers(FullOrder(a.order, dispatched), a.later);
        DeclareCrashed(stale, s);
      }
    }

    /**
     A whole session. The machine run on the consumed answers accounts for every
     field and event; a finished run has written agreeing totals to every JUnit
     reporter behind the broadcast.
     */
    method Run() returns (stats: Option<SchedulerStats>)
      requires Valid() && asked == 0
      modifies this, reporter, reporter.Owned()
      ensures Valid()
      ensures stats.None? ==> asked == |answers| && !model.pc.Done?
      ensures stats.Some? ==>
                && model.pc.Done?
                && stats.value.total == |tests| && stats.value.passed == model.passed && stats.value.failed == model.failed
                && model.events != []
                && model.events[|model.events| - 1] == RunFinished(model.passed, model.failed, 0, stats.value.durationMs)
                && forall c <- reporter.reporters :: c.JunitXml? ==>
                     && c.junit.report.Some?
                     && c.junit.report.value.tests == |c.junit.report.value.cases| == stats.value.passed + stats.value.failed
                     && c.junit.report.value.failures == Failing(c.junit.report.value.cases) == stats.value.failed
    {
      assert answers[..0] == [];
      var ok := DispatchAll();
      if !ok {
        return None;
      }
      ok := DrainAll();
      if !ok {
        return None;
      }
      stats := Some(SchedulerStats(|tests|, passed, failed, durationMs));
      RunKeepsLaws(tests, maxWorkers, startTime, answers[..asked]);
      forall c <- reporter.reporters | c.JunitXml?
        ensures c.junit.View() == JunitAfter(model.events)
      {
        assert c.Saw(reporter.seen);
      }
    }
  }
}
