/**
 What real clocks add: time never runs backwards, and a read of the result
 socket gives up only after five seconds, unless the Zygote is gone. Then a
 sweep of a living Zygote's workers leaves none active.
 */
module Timing {
  import opened Wire
  import opened Resolver
  import opened SchedulerMachine
  import opened SchedulerLaws
  import opened Fate
  import opened RunProtocol
  import opened NetInvariant
  import opened RunInvariant
  import opened RunTheorems

  const READ_TIMEOUT_MS: nat := 5_000

  /** The time after a sequence of steps that started at `t`. */
  function Clock(t: nat, labels: seq<Label>): nat {
    if labels == [] then t
    else
      var l := labels[|labels| - 1];
      if l.Supervisor? then l.answer.later else Clock(t, labels[..|labels| - 1])
  }

  /** A step that starts at `t` or later; a read that finds no result has waited for one. */
  ghost predicate OnTime(y: Sys, t: nat, l: Label) {
    l.Supervisor? ==>
      var a := l.answer;
      && t <= a.now <= a.later
      && (Reading(y.sched, a) && y.net.up && ReadFrame(y.net.pipe).Bad? ==> a.now + READ_TIMEOUT_MS <= a.later)
  }

  ghost predicate Timely(y: Sys, t: nat, labels: seq<Label>)
    requires y.sched.maxWorkers > 0
  {
    labels != [] ==>
      var k := |labels| - 1;
      Timely(y, t, labels[..k]) && OnTime(Trace(y, labels[..k]), Clock(t, labels[..k]), labels[k])
  }

  ghost predicate TimelyRun(cfg: Config, tests: seq<RunnableTest>, maxWorkers: nat, now: nat, labels: seq<Label>)
    requires maxWorkers > 0
  {
    Timely(Boot(cfg, tests, maxWorkers, now), now, labels)
  }

  // ------------------------------------------------------------ start times

  /** No worker was started in the future. */
  ghost predicate StartedBy(active: map<u32, ActiveWorker>, t: nat) {
    forall id :: id in active ==> active[id].startTime <= t
  }

  lemma {:induction false} DeclareStarted(s: Sched, ids: seq<u32>, t: nat)
    requires StartedBy(s.active, t)
    ensures StartedBy(Declare(s, ids).active, t) && s.events <= Declare(s, ids).events
    decreases |ids|
  {
    if ids != [] && ids[0] in s.active {
      var s1 := Report(s.(active := s.active - {ids[0]}), CrashEvent(s.active[ids[0]].testName), Crashed(ids[0]));
      DeclareStarted(s1, ids[1..], t);
    }
  }

  lemma RecordStarted(s: Sched, r: TestResult, t: nat)
    requires StartedBy(s.active, t)
    ensures StartedBy(Record(s, r).active, t) && s.events <= Record(s, r).events
  {}

  lemma DispatchStarted(s: Sched, a: Answer)
    requires s.next < |s.tests| && s.maxWorkers > 0 && StartedBy(s.active, a.now)
    ensures StartedBy(Dispatch(s, a).active, a.now) && s.events <= Dispatch(s, a).events
  {}

  /** A step starts workers now, and only adds events. */
  lemma StepStarted(s: Sched, a: Answer, got: Option<TestResult>, stale: seq<u32>)
    requires s.maxWorkers > 0 && StartedBy(s.active, a.now)
    ensures var s' := StepOn(s, a, got, stale); StartedBy(s'.active, a.now) && s.events <= s'.events
  {
    match s.pc
    case Top =>
    case Waiting =>
      if |s.active| >= s.maxWorkers {
        if got.Some? {
          RecordStarted(s, got.value, a.now);
        }
      } else if s.next < |s.tests| {
        DispatchStarted(s, a);
      }
    case Draining(_) =>
      if got.Some? {
        RecordStarted(s, got.value, a.now);
      } else {
        DeclareStarted(s, stale, a.now);
      }
    case Done =>
  }

  // --------------------------------------------------------------- the sweep

  lemma {:induction false} DeclareClears(s: Sched, ids: seq<u32>)
    requires forall i, j :: 0 <= i < j < |ids| ==> ids[i] != ids[j]
    requires forall i :: 0 <= i < |ids| ==> ids[i] in s.active
    ensures Declare(s, ids).active == s.active - (set id | id in ids)
    decreases |ids|
  {
    if ids == [] {
      assert s.active - (set id | id in ids) == s.active;
    } else {
      var s1 := Report(s.(active := s.active - {ids[0]}), CrashEvent(s.active[ids[0]].testName), Crashed(ids[0]));
      DeclareClears(s1, ids[1..]);
      assert (set id | id in ids) == {ids[0]} + (set id | id in ids[1..]);
    }
  }

  /** After a read that timed out, every worker is stale. */
  lemma SweepClears(s: Sched, order: seq<u32>, later: nat)
    requires Bounds(s) && forall id :: id in s.active ==> s.active[id].startTime + STALE_MS < later
    ensures Declare(s, StaleIds(s.active, FullOrder(order, s.next), later)).active == map[]
  {
    var ids := StaleIds(s.active, FullOrder(order, s.next), later);
    AllStale(s.active, s.next, order, later);
    forall i | 0 <= i < |ids|
      ensures ids[i] in s.active
    {
      assert ids[i] in ids;
    }
    DeclareClears(s, ids);
  }

  lemma AllStale(active: map<u32, ActiveWorker>, next: nat, order: seq<u32>, later: nat)
    requires next <= 0x1_0000_0000 && forall id :: id in active ==> id < next && active[id].startTime + STALE_MS < later
    ensures active.Keys <= (set id | id in StaleIds(active, FullOrder(order, next), later))
  {
    var all := FullOrder(order, next);
    forall id | id in active
      ensures id in StaleIds(active, all, later)
    {
      assert TestId(id) == id;
      assert TestId(id) in all;
    }
  }

  // ------------------------------------------------------- late results, on time

  ghost predicate NoCrash(vs: seq<Verdict>) {
    forall i :: 0 <= i < |vs| ==> !vs[i].Crashed?
  }

  /** The dispatch of the same test had failed. */
  ghost predicate FailedBefore(vs: seq<Verdict>, j: nat)
    requires j < |vs|
  {
    exists i :: 0 <= i < j && vs[i].id == vs[j].id && vs[i].DispatchFailed?
  }

  ghost predicate LateAreFailed(vs: seq<Verdict>) {
    forall j :: 0 <= j < |vs| && vs[j].Late? ==> FailedBefore(vs, j)
  }

  /** Nothing more will be read: all is counted, or the Zygote is gone and no frame is left. */
  ghost predicate Settled(s: Sched, n: Net) {
    (s.pc.Draining? || s.pc.Done?) && (s.collected >= |s.tests| || (!n.up && ReadFrame(n.pipe).Bad?))
  }

  /** Without a shutdown request a crash verdict is the end of reading. */
  ghost predicate OnTimeLaw(s: Sched, n: Net) {
    SHUTDOWN !in s.events ==> LateAreFailed(s.verdicts) && (NoCrash(s.verdicts) || Settled(s, n))
  }

  lemma FailedGrows(vs: seq<Verdict>, v: Verdict)
    requires LateAreFailed(vs) && !v.Late?
    ensures LateAreFailed(vs + [v])
  {
    forall j | 0 <= j < |vs + [v]| && (vs + [v])[j].Late?
      ensures FailedBefore(vs + [v], j)
    {
      var i :| 0 <= i < j && vs[i].id == vs[j].id && vs[i].DispatchFailed?;
      assert (vs + [v])[i] == vs[i];
    }
  }

  lemma {:induction false} DeclareFailed(s: Sched, ids: seq<u32>)
    requires LateAreFailed(s.verdicts)
    ensures LateAreFailed(Declare(s, ids).verdicts)
    decreases |ids|
  {
    if ids != [] && ids[0] in s.active {
      var s1 := Report(s.(active := s.active - {ids[0]}), CrashEvent(s.active[ids[0]].testName), Crashed(ids[0]));
      FailedGrows(s.verdicts, Crashed(ids[0]));
      DeclareFailed(s1, ids[1..]);
    }
  }

  /** A late result recorded while no worker was declared crashed belongs to a failed dispatch. */
  lemma RecordFailed(s: Sched, r: TestResult)
    requires LateAreFailed(s.verdicts) && NoCrash(s.verdicts) && FateLaw(Record(s, r))
    ensures var vs := Record(s, r).verdicts; LateAreFailed(vs) && NoCrash(vs)
  {
    var vs, vs' := s.verdicts, Record(s, r).verdicts;
    forall j | 0 <= j < |vs'| && vs'[j].Late?
      ensures FailedBefore(vs', j)
    {
      assert Excused(vs', j);
      var i :| 0 <= i < j && vs'[i].id == vs'[j].id && (vs'[i].Crashed? || vs'[i].DispatchFailed?);
      assert vs'[i] == vs[i];
    }
  }

  lemma NetOnTime(s: Sched, n: Net, l: NetLabel)
    requires OnTimeLaw(s, n)
    ensures OnTimeLaw(s, NetStep(n, l))
  {}

  lemma DispatchEvents(s: Sched, a: Answer)
    requires s.next < |s.tests| && s.maxWorkers > 0
    ensures s.events <= Dispatch(s, a).events
  {}

  lemma DispatchOnTime(s: Sched, n: Net, n': Net, a: Answer)
    requires OnTimeLaw(s, n) && s.pc.Waiting? && s.maxWorkers > 0 && s.next < |s.tests|
    ensures OnTimeLaw(Dispatch(s, a), n')
  {
    DispatchShape(s, a);
    var s' := Dispatch(s, a);
    DispatchEvents(s, a);
    if SHUTDOWN !in s'.events && a.dispatchError.Some? {
      FailedGrows(s.verdicts, DispatchFailed(TestId(s.next), a.dispatchError.value));
    }
  }

  /** A result can be read only while no worker has been declared crashed. */
  lemma ReadOnTime(s: Sched, n: Net, a: Answer, r: TestResult)
    requires Reading(s, a) && ReadFrame(n.pipe).Got? && OnTimeLaw(s, n) && FateLaw(Record(s, r))
    ensures OnTimeLaw(Record(s, r), Consume(n))
  {
    if SHUTDOWN !in Record(s, r).events {
      assert s.events <= Record(s, r).events;
      RecordFailed(s, r);
    }
  }

  /** A sweep that ends the wait on a living Zygote has counted every test. */
  lemma SweepOnTime(s: Sched, n: Net, a: Answer)
    requires Laws(s) && s.pc.Draining? && OnTimeLaw(s, n) && ReadFrame(n.pipe).Bad?
    requires StartedBy(s.active, a.now) && (n.up ==> a.now + READ_TIMEOUT_MS <= a.later)
    ensures OnTimeLaw(Declare(s, StaleIds(s.active, FullOrder(a.order, s.next), a.later)), Consume(n))
  {
    var ids := StaleIds(s.active, FullOrder(a.order, s.next), a.later);
    DeclareStarted(s, ids, a.now);
    DeclareConfig(s, ids);
    DeclareKeeps(s, ids);
    if SHUTDOWN !in Declare(s, ids).events {
      DeclareFailed(s, ids);
    }
    if n.up {
      SweepClears(s, a.order, a.later);
    }
    SweptOnTime(Declare(s, ids), Consume(n));
  }

  lemma SweptOnTime(s: Sched, n: Net)
    requires Laws(s) && s.pc.Draining? && (SHUTDOWN !in s.events ==> LateAreFailed(s.verdicts))
    requires if n.up then s.active == map[] else ReadFrame(n.pipe).Bad?
    ensures OnTimeLaw(s, n)
  {}

  lemma FinishOnTime(s: Sched, n: Net, now: nat)
    requires OnTimeLaw(s, n) && s.pc.Draining?
    ensures OnTimeLaw(Finish(s, now), n)
  {
    assert s.events <= Finish(s, now).events;
  }

  lemma TopOnTime(s: Sched, n: Net, a: Answer)
    requires OnTimeLaw(s, n) && s.pc.Top? && s.maxWorkers > 0
    ensures OnTimeLaw(StepOn(s, a, None, []), n)
  {
    assert s.events <= StepOn(s, a, None, []).events;
  }

  // ------------------------------------------------------------------- whole runs

  lemma ReadStepOnTime(s: Sched, n: Net, a: Answer)
    requires SchedOk(s) && NetOk(n, s.next) && InStep(s, n.log, n.got) && Reading(s, a) && a.avail == n.pipe
    requires OnTimeLaw(s, n) && StartedBy(s.active, a.now)
    requires n.up && ReadFrame(n.pipe).Bad? ==> a.now + READ_TIMEOUT_MS <= a.later
    ensures OnTimeLaw(Step(s, a), Consume(n))
  {
    Receives(n, s.next);
    if ReadFrame(n.pipe).Got? {
      ReadGot(s, a, n.log, n.got);
      ReadRecords(s, a, n.log[n.got].result);
      ReadOnTime(s, n, a, n.log[n.got].result);
    } else if s.pc.Waiting? {
      NothingRead(s, a);
    } else {
      NothingReadSweeps(s, a);
      SweepOnTime(s, n, a);
    }
  }

  lemma SupervisorOnTime(y: Sys, a: Answer, forked: bool)
    requires SchedOk(y.sched) && NetOk(y.net, y.sched.next) && InStep(y.sched, y.net.log, y.net.got)
    requires OnTimeLaw(y.sched, y.net) && StartedBy(y.sched.active, a.now)
    requires Reading(y.sched, a) && y.net.up && ReadFrame(y.net.pipe).Bad? ==> a.now + READ_TIMEOUT_MS <= a.later
    ensures var y' := SupervisorStep(y, a, forked); OnTimeLaw(y'.sched, y'.net)
  {
    var s, n := y.sched, y.net;
    if Reading(s, a) {
      if a.avail == n.pipe && !MidFrame(n) {
        ReadStepOnTime(s, n, a);
      }
    } else if Dispatching(s) {
      DispatchStepOnTime(y, a, forked);
    } else {
      QuietOnTime(s, n, a);
    }
  }

  lemma DispatchStepOnTime(y: Sys, a: Answer, forked: bool)
    requires y.sched.maxWorkers > 0 && Dispatching(y.sched) && OnTimeLaw(y.sched, y.net)
    ensures var y' := DispatchStep(y, a, forked); OnTimeLaw(y'.sched, y'.net)
  {
    StepIsDispatch(y.sched, a);
    DispatchOnTime(y.sched, y.net, DispatchStep(y, a, forked).net, a);
  }

  lemma QuietOnTime(s: Sched, n: Net, a: Answer)
    requires Laws(s) && OnTimeLaw(s, n) && !Reading(s, a) && !Dispatching(s)
    ensures OnTimeLaw(Step(s, a), n)
  {
    match s.pc
    case Top => TopOnTime(s, n, a);
    case Waiting =>
    case Draining(_) => FinishOnTime(s, n, a.now);
    case Done =>
  }

  lemma NextStarted(y: Sys, t: nat, l: Label)
    requires y.sched.maxWorkers > 0 && StartedBy(y.sched.active, t) && OnTime(y, t, l)
    ensures StartedBy(Next(y, l).sched.active, if l.Supervisor? then l.answer.later else t)
  {
    if l.Supervisor? {
      SupervisorConfig(y, l.answer, l.forked);
      var a, s := l.answer, y.sched;
      StepStarted(s, a, Received(a.avail), StaleIds(s.active, FullOrder(a.order, s.next), a.later));
    }
  }

  lemma NextOnTime(y: Sys, t: nat, l: Label)
    requires Inv(y) && OnTimeLaw(y.sched, y.net) && StartedBy(y.sched.active, t) && OnTime(y, t, l)
    ensures var y' := Next(y, l); OnTimeLaw(y'.sched, y'.net)
  {
    match l
    case Supervisor(a, forked) => SupervisorOnTime(y, a, forked);
    case Zygote(step) => NetOnTime(y.sched, y.net, step);
  }

  lemma {:induction false} RunOnTime(cfg: Config, tests: seq<RunnableTest>, maxWorkers: nat, now: nat, labels: seq<Label>)
    requires Startable(cfg, tests, maxWorkers) && TimelyRun(cfg, tests, maxWorkers, now, labels)
    ensures var y := RunOf(cfg, tests, maxWorkers, now, labels);
            OnTimeLaw(y.sched, y.net) && StartedBy(y.sched.active, Clock(now, labels))
  {
    if labels != [] {
      var k := |labels| - 1;
      RunOnTime(cfg, tests, maxWorkers, now, labels[..k]);
      RunInv(cfg, tests, maxWorkers, now, labels[..k]);
      NextOnTime(RunOf(cfg, tests, maxWorkers, now, labels[..k]), Clock(now, labels[..k]), labels[k]);
      NextStarted(RunOf(cfg, tests, maxWorkers, now, labels[..k]), Clock(now, labels[..k]), labels[k]);
    }
  }

  /**
   In every timely run a result is late only if a shutdown was requested, or the
   dispatch of the very same test failed although it had forked.
   */
  lemma LateNeedsShutdown(cfg: Config, tests: seq<RunnableTest>, maxWorkers: nat, now: nat, labels: seq<Label>, j: nat)
    requires Startable(cfg, tests, maxWorkers) && TimelyRun(cfg, tests, maxWorkers, now, labels)
    requires var vs := RunOf(cfg, tests, maxWorkers, now, labels).sched.verdicts; j < |vs| && vs[j].Late?
    ensures var y := RunOf(cfg, tests, maxWorkers, now, labels); var vs := y.sched.verdicts;
            || SHUTDOWN in y.sched.events
            || (FailedBefore(vs, j) && vs[j].id in y.net.workers)
  {
    RunOnTime(cfg, tests, maxWorkers, now, labels);
    RunInv(cfg, tests, maxWorkers, now, labels);
    var y := RunOf(cfg, tests, maxWorkers, now, labels);
    ResultOwned(y.sched, y.net, j);
  }

  /** A reported result comes from a worker that exists. */
  lemma ResultOwned(s: Sched, n: Net, j: nat)
    requires FateLaw(s) && InStep(s, n.log, n.got) && LogOk(n.log, n.workers)
    requires j < |s.verdicts| && IsResult(s.verdicts[j])
    ensures s.verdicts[j].id in n.workers
  {
    ResultIn(s.verdicts, j);
    var k :| 0 <= k < n.got && ResultsOf(n.log[..n.got])[k] == s.verdicts[j].result;
    assert Owned(n.log[k], n.workers);
  }

  /**
   A timely run that returns before the deadline, without a shutdown request and
   without a failed dispatch that forked, has reported every test exactly once.
   */
  lemma EveryTestOnce(cfg: Config, tests: seq<RunnableTest>, maxWorkers: nat, now: nat, labels: seq<Label>)
    requires Startable(cfg, tests, maxWorkers) && TimelyRun(cfg, tests, maxWorkers, now, labels)
    requires var y := RunOf(cfg, tests, maxWorkers, now, labels);
             && y.sched.pc.Done? && y.sched.collected >= |tests| && SHUTDOWN !in y.sched.events
             && forall i :: 0 <= i < |y.sched.verdicts| && y.sched.verdicts[i].DispatchFailed? ==>
                  y.sched.verdicts[i].id !in y.net.workers
    ensures var s := RunOf(cfg, tests, maxWorkers, now, labels).sched;
            && s.active == map[] && s.passed + s.failed == |tests|
            && (forall id: u32 :: id < |tests| ==> HasVerdict(s.verdicts, id))
            && forall i, j :: 0 <= i < j < |s.verdicts| ==> s.verdicts[i].id != s.verdicts[j].id
  {
    var y := RunOf(cfg, tests, maxWorkers, now, labels);
    var vs := y.sched.verdicts;
    forall j | 0 <= j < |vs|
      ensures !vs[j].Late?
    {
      if vs[j].Late? {
        LateNeedsShutdown(cfg, tests, maxWorkers, now, labels, j);
      }
    }
    NoneLate(vs);
    CompleteRun(cfg, tests, maxWorkers, now, labels);
    assert |y.sched.active| == 0;
  }

  lemma {:induction false} NoneLate(vs: seq<Verdict>)
    requires forall j :: 0 <= j < |vs| ==> !vs[j].Late?
    ensures LateCount(vs) == 0
  {
    if vs != [] {
      NoneLate(vs[..|vs| - 1]);
    }
  }

  // ----------------------------------------------------------------- the deadline

  /** Some look at the clock was ten seconds before `deadline`. */
  ghost predicate TenSecondsFrom(labels: seq<Label>, deadline: nat) {
    exists k :: 0 <= k < |labels| && labels[k].Supervisor? && deadline == labels[k].answer.now + 10_000
  }

  lemma StepDeadline(s: Sched, a: Answer)
    requires s.maxWorkers > 0 && Step(s, a).pc.Draining?
    ensures Step(s, a).pc == s.pc || Step(s, a).pc.deadline == a.now + 10_000
  {
    var got, stale := Received(a.avail), StaleIds(s.active, FullOrder(a.order, s.next), a.later);
    match s.pc
    case Top =>
    case Waiting =>
    case Draining(_) => DrainOncePc(s, got, stale);
    case Done =>
  }

  lemma NextDeadline(y: Sys, l: Label)
    requires y.sched.maxWorkers > 0 && Next(y, l).sched.pc.Draining?
    ensures Next(y, l).sched.pc == y.sched.pc || (l.Supervisor? && Next(y, l).sched.pc.deadline == l.answer.now + 10_000)
  {
    if l.Supervisor? {
      SupervisorConfig(y, l.answer, l.forked);
      if Next(y, l).sched != y.sched {
        StepDeadline(y.sched, l.answer);
      }
    }
  }

  /** In every run outstanding results are waited for until ten seconds after dispatching ended. */
  lemma {:induction false} DrainsTenSeconds(cfg: Config, tests: seq<RunnableTest>, maxWorkers: nat, now: nat, labels: seq<Label>)
    requires maxWorkers > 0 && RunOf(cfg, tests, maxWorkers, now, labels).sched.pc.Draining?
    ensures TenSecondsFrom(labels, RunOf(cfg, tests, maxWorkers, now, labels).sched.pc.deadline)
  {
    if labels != [] {
      var k := |labels| - 1;
      var before := RunOf(cfg, tests, maxWorkers, now, labels[..k]);
      NextDeadline(before, labels[k]);
      if before.sched.pc == RunOf(cfg, tests, maxWorkers, now, labels).sched.pc {
        DrainsTenSeconds(cfg, tests, maxWorkers, now, labels[..k]);
        var j :| 0 <= j < k && labels[..k][j].Supervisor? && before.sched.pc.deadline == labels[..k][j].answer.now + 10_000;
        assert labels[j] == labels[..k][j];
      }
    }
  }
}
