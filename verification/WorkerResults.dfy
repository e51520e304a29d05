/** Where reported results come from: the harness of the test's own worker. */
module WorkerResults {
  import opened Wire
  import opened Discovery
  import opened Resolver
  import opened Reporting
  import opened SchedulerMachine
  import opened SchedulerLaws
  import opened Fate
  import opened RunProtocol
  import opened NetInvariant
  import opened RunInvariant
  import opened RunTheorems

  /** The result tells what the harness did: its status and message, or the error it raised. */
  ghost predicate Tells(r: TestResult, outcome: HarnessOutcome, ns: u64) {
    && r.durationNs == ns
    && match outcome
       case Returned(status, message) => r.status == status && r.message == message
       case Raised(error) => r.status == 5 && r.message == "PyO3 Error: " + error
  }

  /** The step in which the worker of `id` ran its test and got this result. */
  ghost predicate RanAt(l: Label, id: u32, r: TestResult) {
    && l.Zygote? && l.step.WorkerActs? && l.step.w == id && l.step.act.FinishTest?
    && r.testId == id && Tells(r, l.step.act.outcome, l.step.act.ns)
  }

  ghost predicate Ran(labels: seq<Label>, id: u32, r: TestResult) {
    exists k :: 0 <= k < |labels| && RanAt(labels[k], id, r)
  }

  /** Every result a worker holds came from its harness. */
  ghost predicate AllRan(labels: seq<Label>, ws: map<u32, Worker>) {
    forall id :: id in ws && ws[id].result.Some? ==> Ran(labels, id, ws[id].result.value)
  }

  lemma RanGrows(labels: seq<Label>, l: Label, id: u32, r: TestResult)
    ensures Ran(labels, id, r) ==> Ran(labels + [l], id, r)
    ensures RanAt(l, id, r) ==> Ran(labels + [l], id, r)
  {
    assert (labels + [l])[|labels|] == l;
    if k :| 0 <= k < |labels| && RanAt(labels[k], id, r) {
      assert (labels + [l])[k] == labels[k];
    }
  }

  /** A worker gets its result by running its test. */
  lemma WorkerRan(w: Worker, id: u32, act: WorkerAct)
    requires w.payload.testId == id
    ensures var w' := WorkerStep(w, act);
            w'.result == w.result || (w'.result.Some? && RanAt(Zygote(WorkerActs(id, act)), id, w'.result.value))
  {}

  /** The worker, if it has a result, has had it before. */
  ghost predicate SameResult(ws: map<u32, Worker>, ws': map<u32, Worker>, id: u32) {
    id in ws' && ws'[id].result.Some? ==> id in ws && ws'[id].result == ws[id].result
  }

  lemma SupervisorResults(y: Sys, a: Answer, forked: bool, id: u32)
    requires y.sched.maxWorkers > 0
    requires Dispatching(y.sched) ==> PayloadOk(PayloadAt(y.cfg, y.sched, y.sched.next))
    ensures SameResult(y.net.workers, SupervisorStep(y, a, forked).net.workers, id)
  {
    if Reading(y.sched, a) {
      ConsumeShape(y.net);
    } else if Dispatching(y.sched) {
      DispatchResults(y.net, PayloadAt(y.cfg, y.sched, y.sched.next), a.dispatchError.Some?, forked, id);
    }
  }

  lemma DispatchResults(n: Net, p: TestPayload, failed: bool, forked: bool, id: u32)
    requires PayloadOk(p)
    ensures var n' := DispatchNet(n, ForkCommand(p), failed, forked);
            n'.Some? ==> SameResult(n.workers, n'.value.workers, id)
  {
    DispatchSpawns(n, p, failed, forked);
  }

  lemma NetResults(n: Net, l: NetLabel, id: u32)
    requires !(l.WorkerActs? && l.w == id)
    ensures SameResult(n.workers, NetStep(n, l).workers, id)
  {}

  /** Only a worker's own steps give it a result; new workers have none. */
  lemma NextResults(y: Sys, l: Label, id: u32)
    requires Inv(y) && !(l.Zygote? && l.step.WorkerActs? && l.step.w == id)
    ensures SameResult(y.net.workers, Next(y, l).net.workers, id)
  {
    match l
    case Supervisor(a, forked) =>
      if Dispatching(y.sched) {
        PayloadFits(y.cfg, y.sched, y.sched.next);
      }
      SupervisorResults(y, a, forked, id);
    case Zygote(step) => NetResults(y.net, step, id);
  }

  lemma NextRan(y: Sys, labels: seq<Label>, l: Label)
    requires Inv(y) && AllRan(labels, y.net.workers)
    ensures AllRan(labels + [l], Next(y, l).net.workers)
  {
    var ws := Next(y, l).net.workers;
    forall id | id in ws && ws[id].result.Some?
      ensures Ran(labels + [l], id, ws[id].result.value)
    {
      RanGrows(labels, l, id, ws[id].result.value);
      if l.Zygote? && l.step.WorkerActs? && l.step.w == id {
        WorkerRan(y.net.workers[id], id, l.step.act);
      } else {
        NextResults(y, l, id);
      }
    }
  }

  lemma {:induction false} RunRan(cfg: Config, tests: seq<RunnableTest>, maxWorkers: nat, now: nat, labels: seq<Label>)
    requires Startable(cfg, tests, maxWorkers)
    ensures AllRan(labels, RunOf(cfg, tests, maxWorkers, now, labels).net.workers)
  {
    if labels != [] {
      var k := |labels| - 1;
      var before, l := labels[..k], labels[k];
      assert labels == before + [l];
      RunRan(cfg, tests, maxWorkers, now, before);
      RunInv(cfg, tests, maxWorkers, now, before);
      RanNext(cfg, tests, maxWorkers, now, before, l);
    }
  }

  lemma RanNext(cfg: Config, tests: seq<RunnableTest>, maxWorkers: nat, now: nat, before: seq<Label>, l: Label)
    requires maxWorkers > 0 && Inv(RunOf(cfg, tests, maxWorkers, now, before))
    requires AllRan(before, RunOf(cfg, tests, maxWorkers, now, before).net.workers)
    ensures AllRan(before + [l], RunOf(cfg, tests, maxWorkers, now, before + [l]).net.workers)
  {
    NextRan(RunOf(cfg, tests, maxWorkers, now, before), before, l);
    assert (before + [l])[..|before|] == before;
  }

  // ---------------------------------------------------------------- main results

  /** In every run, whatever was queued for the scheduler is what the harness of that test's worker did. */
  lemma QueuedRan(cfg: Config, tests: seq<RunnableTest>, maxWorkers: nat, now: nat, labels: seq<Label>, i: nat)
    requires Startable(cfg, tests, maxWorkers) && i < |RunOf(cfg, tests, maxWorkers, now, labels).net.log|
    ensures var r := RunOf(cfg, tests, maxWorkers, now, labels).net.log[i].result; Ran(labels, r.testId, r)
  {
    RunRan(cfg, tests, maxWorkers, now, labels);
    RunInv(cfg, tests, maxWorkers, now, labels);
    var n := RunOf(cfg, tests, maxWorkers, now, labels).net;
    EntryRan(labels, n.workers, n.log, i);
  }

  lemma EntryRan(labels: seq<Label>, ws: map<u32, Worker>, log: seq<Queued>, i: nat)
    requires AllRan(labels, ws) && LogOk(log, ws) && i < |log|
    ensures Ran(labels, log[i].result.testId, log[i].result)
  {
    assert Owned(log[i], ws);
  }

  /** And so is every result that was reported. */
  lemma ReportedRan(cfg: Config, tests: seq<RunnableTest>, maxWorkers: nat, now: nat, labels: seq<Label>, j: nat)
    requires Startable(cfg, tests, maxWorkers)
    requires var vs := RunOf(cfg, tests, maxWorkers, now, labels).sched.verdicts; j < |vs| && IsResult(vs[j])
    ensures var v := RunOf(cfg, tests, maxWorkers, now, labels).sched.verdicts[j];
            Ran(labels, v.id, v.result) && v.id < |tests|
  {
    RunInv(cfg, tests, maxWorkers, now, labels);
    TraceConfig(Boot(cfg, tests, maxWorkers, now), labels);
    var y := RunOf(cfg, tests, maxWorkers, now, labels);
    var i := ReadEntry(y.sched, y.net, j);
    QueuedRan(cfg, tests, maxWorkers, now, labels, i);
  }

  lemma ReadEntry(s: Sched, n: Net, j: nat) returns (i: nat)
    requires FateLaw(s) && InStep(s, n.log, n.got) && j < |s.verdicts| && IsResult(s.verdicts[j])
    ensures i < |n.log| && n.log[i].result == s.verdicts[j].result && n.log[i].result.testId == s.verdicts[j].id
  {
    ResultIn(s.verdicts, j);
    i :| 0 <= i < n.got && ResultsOf(n.log[..n.got])[i] == s.verdicts[j].result;
  }

  /** The finish event tells what the harness did, under the given name. */
  ghost predicate Reports(e: MachineEvent, name: string, outcome: HarnessOutcome, ns: u64) {
    && e.TestFinished? && e.id == name && e.durationMs == ns / 1_000_000
    && match outcome
       case Returned(status, message) =>
         && e.status == (if status == 0 then "pass" else "fail")
         && e.message == if message == "" then None else Some(message)
       case Raised(error) => e.status == "fail" && e.message == Some("PyO3 Error: " + error)
  }

  /** Some step of the worker of `id` is what the event reports. */
  ghost predicate ReportsRun(e: MachineEvent, name: string, labels: seq<Label>, id: u32) {
    exists k :: 0 <= k < |labels| && labels[k].Zygote? && labels[k].step.WorkerActs? && labels[k].step.w == id
             && labels[k].step.act.FinishTest? && Reports(e, name, labels[k].step.act.outcome, labels[k].step.act.ns)
  }

  lemma EventReports(name: string, r: TestResult, outcome: HarnessOutcome, ns: u64)
    requires Tells(r, outcome, ns)
    ensures Reports(ResultEvent(name, r), name, outcome, ns)
  {
    if outcome.Raised? {
      assert r.message[0] == 'P';
    }
  }

  lemma ResultReports(name: string, r: TestResult, labels: seq<Label>, id: u32)
    requires Ran(labels, id, r)
    ensures ReportsRun(ResultEvent(name, r), name, labels, id)
  {
    var k :| 0 <= k < |labels| && RanAt(labels[k], id, r);
    EventReports(name, r, labels[k].step.act.outcome, labels[k].step.act.ns);
  }

  /**
   What each finish event of a run says, from the test's name to the message:
   the outcome of the test's own harness, or why there is none.
   */
  lemma EventsTellOutcomes(cfg: Config, tests: seq<RunnableTest>, maxWorkers: nat, now: nat, labels: seq<Label>, j: nat)
    requires Startable(cfg, tests, maxWorkers) && j < |RunOf(cfg, tests, maxWorkers, now, labels).sched.verdicts|
    ensures var s := RunOf(cfg, tests, maxWorkers, now, labels).sched;
            var v := s.verdicts[j];
            && j < |FinishEvents(s.events)| && v.id < |tests|
            && var e, name := FinishEvents(s.events)[j], tests[v.id].testName;
               match v
               case Matched(id, _) => ReportsRun(e, name, labels, id)
               case Late(id, _) => ReportsRun(e, LateName(id), labels, id)
               case Crashed(_) => e == TestFinished(name, "fail", 0, Some("CRASHED - no response"))
               case DispatchFailed(_, error) => e == TestFinished(name, "fail", 0, Some(error))
  {
    Conservation(cfg, tests, maxWorkers, now, labels);
    RunInv(cfg, tests, maxWorkers, now, labels);
    TraceConfig(Boot(cfg, tests, maxWorkers, now), labels);
    var v := RunOf(cfg, tests, maxWorkers, now, labels).sched.verdicts[j];
    if IsResult(v) {
      ReportedRan(cfg, tests, maxWorkers, now, labels, j);
      ResultReports(if v.Matched? then tests[v.id].testName else LateName(v.id), v.result, labels, v.id);
    }
  }

  /** The harness of `id` returned status 0. */
  ghost predicate HarnessPassed(labels: seq<Label>, id: u32, r: TestResult) {
    exists k :: 0 <= k < |labels| && RanAt(labels[k], id, r)
             && labels[k].step.act.outcome.Returned? && labels[k].step.act.outcome.status == 0
  }

  lemma PassedIff(labels: seq<Label>, id: u32, r: TestResult)
    requires Ran(labels, id, r)
    ensures HarnessPassed(labels, id, r) <==> r.status == STATUS_PASS
  {
    var k :| 0 <= k < |labels| && RanAt(labels[k], id, r);
    if r.status == STATUS_PASS {
      assert RanAt(labels[k], id, r) && labels[k].step.act.outcome.Returned?;
    }
  }

  /** A finished run's JUnit case is without failure exactly if its result is one of a harness that returned status 0. */
  lemma PassMeansHarnessPassed(cfg: Config, tests: seq<RunnableTest>, maxWorkers: nat, now: nat, labels: seq<Label>, i: nat)
    requires Startable(cfg, tests, maxWorkers)
    requires var s := RunOf(cfg, tests, maxWorkers, now, labels).sched; s.pc.Done? && i < |s.verdicts|
    ensures var s := RunOf(cfg, tests, maxWorkers, now, labels).sched;
            var report, v := JunitAfter(s.events).report, s.verdicts[i];
            && report.Some? && i < |report.value.cases|
            && (report.value.cases[i].failure.None? <==> IsResult(v) && HarnessPassed(labels, v.id, v.result))
  {
    SkippedCountAsFailed(cfg, tests, maxWorkers, now, labels);
    var v := RunOf(cfg, tests, maxWorkers, now, labels).sched.verdicts[i];
    if IsResult(v) {
      ReportedRan(cfg, tests, maxWorkers, now, labels, i);
      PassedIff(labels, v.id, v.result);
    }
  }

  // -------------------------------------------------------------------- payloads

  /** The scope's word on the wire. */
  ghost predicate ScopeWord(scope: FixtureScope, word: string) {
    && (scope.FunctionScope? ==> word == "function") && (scope.ClassScope? ==> word == "class")
    && (scope.ModuleScope? ==> word == "module") && (scope.SessionScope? ==> word == "session")
  }

  /** The payload carries everything the worker has to know of its test. */
  ghost predicate Carries(p: TestPayload, cfg: Config, test: RunnableTest, id: u32, slot: nat) {
    && p.testId == id && p.filePath == test.filePath && p.testName == test.testName && p.isAsync == test.isAsync
    && p.debugSocketPath == cfg.debugSocketPath
    && p.logFd == (if slot < |cfg.logFds| then cfg.logFds[slot] else -1)
    && |p.fixtures| == |test.fixtures|
    && forall i :: 0 <= i < |p.fixtures| ==>
         p.fixtures[i].name == test.fixtures[i].name && ScopeWord(test.fixtures[i].scope, p.fixtures[i].scope)
  }

  /** In every run each worker has the payload of its own test, with the log descriptor of its slot. */
  lemma WorkerPayloads(cfg: Config, tests: seq<RunnableTest>, maxWorkers: nat, now: nat, labels: seq<Label>, id: u32)
    requires Startable(cfg, tests, maxWorkers) && id in RunOf(cfg, tests, maxWorkers, now, labels).net.workers
    ensures id < |tests|
    ensures Carries(RunOf(cfg, tests, maxWorkers, now, labels).net.workers[id].payload, cfg, tests[id], id, id % maxWorkers)
  {
    RunInv(cfg, tests, maxWorkers, now, labels);
    TraceConfig(Boot(cfg, tests, maxWorkers, now), labels);
    CfgKept(Boot(cfg, tests, maxWorkers, now), labels);
    var s := RunOf(cfg, tests, maxWorkers, now, labels).sched;
    PayloadCarries(cfg, s, id);
  }

  lemma PayloadCarries(cfg: Config, s: Sched, id: u32)
    requires id < |s.tests| && s.maxWorkers > 0
    ensures Carries(PayloadAt(cfg, s, id), cfg, s.tests[id], id, id % s.maxWorkers)
  {
    SmallId(id);
  }
}
