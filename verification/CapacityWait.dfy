/**
 The loop that waits for capacity only reads results; it never looks for
 crashed workers. When no active worker can answer any more, it never ends.
 */
module CapacityWait {
  import opened Wire
  import opened Resolver
  import opened SchedulerMachine
  import opened RunProtocol
  import opened NetInvariant
  import opened RunInvariant
  import opened RunTheorems
  import opened Timing
  import opened RunSteps

  /** Dead, with no complete frame left for its collector. */
  ghost predicate Mute(w: Worker) { !w.alive && (!w.collecting || ReadFrame(w.sent).Bad?) }

  /** No active worker will answer, and no unread result is one of theirs. */
  ghost predicate Hopeless(n: Net, active: set<u32>) {
    && (forall id :: id in active && id in n.workers ==> Mute(n.workers[id]))
    && forall i :: n.got <= i < |n.log| ==> n.log[i].result.testId !in active
  }

  /** Waiting for capacity, in vain. */
  ghost predicate Hung(y: Sys) {
    y.sched.pc.Waiting? && |y.sched.active| >= y.sched.maxWorkers && Hopeless(y.net, y.sched.active.Keys)
  }

  lemma MuteWorkerStep(w: Worker, act: WorkerAct)
    requires Mute(w)
    ensures Mute(WorkerStep(w, act))
  {}

  lemma CollectHopeless(n: Net, next: nat, active: set<u32>, id: u32)
    requires NetOk(n, next) && Hopeless(n, active) && id in n.workers
    ensures Hopeless(CollectStep(n, id), active)
  {
    var w := n.workers[id];
    var q := ToQueue(w);
    if n.up && q.Some? {
      assert id !in active;
      assert q.value.result.testId == id;
    }
  }

  lemma NetHopeless(n: Net, next: nat, active: set<u32>, l: NetLabel)
    requires NetOk(n, next) && Hopeless(n, active)
    ensures Hopeless(NetStep(n, l), active)
  {
    match l
    case WorkerActs(id, act) =>
      if id in n.workers && id in active {
        MuteWorkerStep(n.workers[id], act);
      }
    case CollectorSends(id) =>
      if id in n.workers {
        CollectHopeless(n, next, active, id);
      }
    case ForwarderTakes =>
    case ForwarderWrites(_) =>
    case ZygoteDies =>
  }

  lemma ConsumeHopeless(n: Net, active: set<u32>)
    requires Hopeless(n, active)
    ensures Hopeless(Consume(n), active)
  {
    ConsumeShape(n);
  }

  /** Reading brings at most a late result of some other test. */
  lemma LookHangs(s: Sched, n: Net, a: Answer)
    requires SchedOk(s) && NetOk(n, s.next) && Hopeless(n, s.active.Keys) && a.avail == n.pipe
    requires s.pc.Waiting? && |s.active| >= s.maxWorkers
    ensures var s' := Step(s, a); s'.pc == s.pc && s'.active == s.active && s'.next == s.next && s'.maxWorkers == s.maxWorkers
  {
    Receives(n, s.next);
    if ReadFrame(n.pipe).Got? {
      ReadRecords(s, a, n.log[n.got].result);
    } else {
      NothingRead(s, a);
    }
  }

  /** The run is where it was: same tests dispatched, same workers waited for. */
  ghost predicate StillHung(y: Sys, y': Sys) {
    Hung(y') && y'.sched.next == y.sched.next && y'.sched.active == y.sched.active
  }

  lemma ReadHangs(y: Sys, a: Answer)
    requires Inv(y) && Hung(y)
    ensures StillHung(y, ReadStep(y, a))
  {
    if a.avail == y.net.pipe && !MidFrame(y.net) {
      LookHangs(y.sched, y.net, a);
      ConsumeHopeless(y.net, y.sched.active.Keys);
    }
  }

  lemma NextHangs(y: Sys, l: Label)
    requires Inv(y) && Hung(y)
    ensures StillHung(y, Next(y, l))
  {
    match l
    case Supervisor(a, _) => ReadHangs(y, a);
    case Zygote(step) => NetHopeless(y.net, y.sched.next, y.sched.active.Keys, step);
  }

  lemma {:induction false} TraceHangs(y: Sys, labels: seq<Label>)
    requires Inv(y) && Hung(y)
    ensures Inv(Trace(y, labels)) && StillHung(y, Trace(y, labels))
  {
    if labels != [] {
      var k := |labels| - 1;
      TraceHangs(y, labels[..k]);
      NextKeeps(Trace(y, labels[..k]), labels[k]);
      NextHangs(Trace(y, labels[..k]), labels[k]);
    }
  }

  /** From a hung state of any run, every continuation stays there and dispatches nothing. */
  lemma HungForever(cfg: Config, tests: seq<RunnableTest>, maxWorkers: nat, now: nat, labels: seq<Label>, more: seq<Label>)
    requires Startable(cfg, tests, maxWorkers) && Hung(RunOf(cfg, tests, maxWorkers, now, labels))
    ensures StillHung(RunOf(cfg, tests, maxWorkers, now, labels), RunOf(cfg, tests, maxWorkers, now, labels + more))
  {
    RunInv(cfg, tests, maxWorkers, now, labels);
    TraceConcat(Boot(cfg, tests, maxWorkers, now), labels, more);
    TraceHangs(RunOf(cfg, tests, maxWorkers, now, labels), more);
  }

  // ------------------------------------------------------------------- it happens

  /** `k` tests dispatched, and every worker dead before it wrote anything. */
  ghost predicate AllCrashed(y: Sys, k: nat) {
    && y.sched.pc.Top? && y.sched.next == k && y.sched.verdicts == []
    && y.net.up && y.net.log == [] && forall id :: id in y.net.workers ==> Mute(y.net.workers[id])
  }

  lemma DispatchQuiet(s: Sched, now: nat)
    requires s.next < |s.tests| && s.maxWorkers > 0
    ensures var s' := Dispatch(s, Quiet(now, [])); s'.pc.Top? && s'.next == s.next + 1 && s'.verdicts == s.verdicts
  {}

  lemma ExitMutes(n: Net, p: TestPayload)
    requires n.log == [] && n.up && forall id :: id in n.workers ==> Mute(n.workers[id])
    ensures var n' := NetStep(Spawn(n, p), WorkerActs(p.testId, Exit));
            n'.log == [] && n'.up && forall id :: id in n'.workers ==> Mute(n'.workers[id])
  {}

  lemma {:induction false} CrashAll(cfg: Config, tests: seq<RunnableTest>, maxWorkers: nat, k: nat)
    returns (labels: seq<Label>, y: Sys)
    requires Startable(cfg, tests, maxWorkers) && k <= maxWorkers && k <= |tests|
    ensures Reaches(Boot(cfg, tests, maxWorkers, 0), 0, labels, y, 0) && AllCrashed(y, k)
  {
    labels, y := [], Boot(cfg, tests, maxWorkers, 0);
    if k > 0 {
      labels, y := CrashAll(cfg, tests, maxWorkers, k - 1);
      RunInv(cfg, tests, maxWorkers, 0, labels);
      TraceConfig(Boot(cfg, tests, maxWorkers, 0), labels);
      labels, y := CrashOne(Boot(cfg, tests, maxWorkers, 0), labels, y, k - 1);
    }
  }

  /** Dispatch one more test, whose worker dies at once. */
  lemma CrashOne(y0: Sys, labels: seq<Label>, y: Sys, k: nat) returns (more: seq<Label>, y': Sys)
    requires y0.sched.maxWorkers > 0 && Reaches(y0, 0, labels, y, 0) && Inv(y) && AllCrashed(y, k)
    requires k < y.sched.maxWorkers && k < |y.sched.tests|
    ensures Reaches(y0, 0, more, y', 0) && AllCrashed(y', k + 1)
  {
    var p := PayloadAt(y.cfg, y.sched, k);
    more := DispatchNext(y0, 0, labels, y, 0);
    DispatchQuiet(y.sched.(pc := Waiting), 0);
    y' := Dispatched(y, 0);
    ZygoteExtends(y0, 0, more, y', 0, WorkerActs(p.testId, Exit));
    ExitMutes(y.net, p);
    y' := y'.(net := NetStep(y'.net, WorkerActs(p.testId, Exit)));
    more := more + [Zygote(WorkerActs(p.testId, Exit))];
  }

  /** With more tests than slots there is a run that hangs after filling the slots with crashing workers. */
  lemma CrashesHang(cfg: Config, tests: seq<RunnableTest>, maxWorkers: nat) returns (labels: seq<Label>)
    requires Startable(cfg, tests, maxWorkers) && |tests| > maxWorkers
    ensures TimelyRun(cfg, tests, maxWorkers, 0, labels)
    ensures var y := RunOf(cfg, tests, maxWorkers, 0, labels);
            Hung(y) && y.sched.next == maxWorkers && y.sched.verdicts == []
  {
    var y0, y := Boot(cfg, tests, maxWorkers, 0), Boot(cfg, tests, maxWorkers, 0);
    labels, y := CrashAll(cfg, tests, maxWorkers, maxWorkers);
    RunInv(cfg, tests, maxWorkers, 0, labels);
    TraceConfig(y0, labels);
    TopWaits(y, 0);
    Extend(y0, 0, labels, y, 0, Look(0, []));
    labels := labels + [Look(0, [])];
  }
}
