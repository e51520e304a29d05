/** When the capacity loop can still be left: exactly if some active worker can answer. */
module CapacityProgress {
  import opened Wire
  import opened Resolver
  import opened SchedulerMachine
  import opened SchedulerLaws
  import opened Fate
  import opened RunProtocol
  import opened NetInvariant
  import opened RunInvariant
  import opened RunTheorems
  import opened Timing
  import opened RunSteps
  import opened CapacityWait

  // ------------------------------------------------- no live worker is forgotten

  ghost predicate InLog(log: seq<Queued>, id: u32, from: nat) {
    exists i :: from <= i < |log| && log[i].result.testId == id
  }

  /** A live worker still has its collector, or has been queued. */
  ghost predicate Attended(ws: map<u32, Worker>, log: seq<Queued>) {
    forall id :: id in ws ==> ws[id].collecting || !ws[id].alive || InLog(log, id, 0)
  }

  lemma InLogGrows(log: seq<Queued>, q: Queued, from: nat)
    requires from <= |log|
    ensures forall id :: InLog(log, id, from) ==> InLog(log + [q], id, from)
    ensures InLog(log + [q], q.result.testId, from)
  {
    assert (log + [q])[|log|] == q;
    forall id | InLog(log, id, from)
      ensures InLog(log + [q], id, from)
    {
      var i :| from <= i < |log| && log[i].result.testId == id;
      assert (log + [q])[i].result.testId == id;
    }
  }

  lemma CollectAttended(n: Net, next: nat, id: u32)
    requires NetOk(n, next) && Attended(n.workers, n.log) && id in n.workers
    ensures var n' := CollectStep(n, id); Attended(n'.workers, n'.log)
  {
    var q := ToQueue(n.workers[id]);
    if n.up && q.Some? {
      InLogGrows(n.log, q.value, 0);
    }
  }

  lemma WorkerAttended(ws: map<u32, Worker>, log: seq<Queued>, id: u32, act: WorkerAct)
    requires Attended(ws, log) && id in ws
    ensures Attended(ws[id := WorkerStep(ws[id], act)], log)
  {
    var w' := WorkerStep(ws[id], act);
    assert w'.alive ==> ws[id].alive && w'.collecting == ws[id].collecting;
  }

  lemma NetAttended(n: Net, next: nat, l: NetLabel)
    requires NetOk(n, next) && Attended(n.workers, n.log)
    ensures var n' := NetStep(n, l); Attended(n'.workers, n'.log)
  {
    match l
    case WorkerActs(id, act) =>
      if id in n.workers {
        WorkerAttended(n.workers, n.log, id, act);
      }
    case CollectorSends(id) =>
      if id in n.workers {
        CollectAttended(n, next, id);
      }
    case ForwarderTakes =>
    case ForwarderWrites(_) =>
    case ZygoteDies =>
  }

  lemma DispatchAttended(n: Net, p: TestPayload, failed: bool, forked: bool)
    requires PayloadOk(p) && Attended(n.workers, n.log)
    ensures var n' := DispatchNet(n, ForkCommand(p), failed, forked);
            n'.Some? ==> Attended(n'.value.workers, n'.value.log)
  {
    DispatchSpawns(n, p, failed, forked);
  }

  lemma SupervisorAttended(y: Sys, a: Answer, forked: bool)
    requires y.sched.maxWorkers > 0 && Attended(y.net.workers, y.net.log)
    requires Dispatching(y.sched) ==> PayloadOk(PayloadAt(y.cfg, y.sched, y.sched.next))
    ensures var n' := SupervisorStep(y, a, forked).net; Attended(n'.workers, n'.log)
  {
    if Reading(y.sched, a) {
      ConsumeShape(y.net);
    } else if Dispatching(y.sched) {
      DispatchAttended(y.net, PayloadAt(y.cfg, y.sched, y.sched.next), a.dispatchError.Some?, forked);
    }
  }

  lemma NextAttended(y: Sys, l: Label)
    requires Inv(y) && Attended(y.net.workers, y.net.log)
    ensures var n' := Next(y, l).net; Attended(n'.workers, n'.log)
  {
    match l
    case Supervisor(a, forked) =>
      if Dispatching(y.sched) {
        PayloadFits(y.cfg, y.sched, y.sched.next);
      }
      SupervisorAttended(y, a, forked);
    case Zygote(step) => NetAttended(y.net, y.sched.next, step);
  }

  lemma {:induction false} RunAttended(cfg: Config, tests: seq<RunnableTest>, maxWorkers: nat, now: nat, labels: seq<Label>)
    requires Startable(cfg, tests, maxWorkers)
    ensures var n := RunOf(cfg, tests, maxWorkers, now, labels).net; Attended(n.workers, n.log)
  {
    if labels != [] {
      var k := |labels| - 1;
      RunAttended(cfg, tests, maxWorkers, now, labels[..k]);
      RunInv(cfg, tests, maxWorkers, now, labels[..k]);
      NextAttended(RunOf(cfg, tests, maxWorkers, now, labels[..k]), labels[k]);
    }
  }

  // ---------------------------------------------------------- an answer is queued

  ghost predicate AtCap(s: Sched) { s.pc.Waiting? && |s.active| >= s.maxWorkers }

  lemma {:induction false} ReadIsReported(vs: seq<Verdict>, r: TestResult)
    requires r in Results(vs)
    ensures exists j :: 0 <= j < |vs| && IsResult(vs[j]) && vs[j].result == r
  {
    var k := |vs| - 1;
    if r in Results(vs[..k]) {
      ReadIsReported(vs[..k], r);
      var j :| 0 <= j < k && IsResult(vs[..k][j]) && vs[..k][j].result == r;
      assert vs[j].result == r;
    }
  }

  /** A queued result of an active worker has not been read. */
  lemma QueuedUnread(s: Sched, log: seq<Queued>, got: nat, id: u32)
    requires FateLaw(s) && InStep(s, log, got) && id in s.active && InLog(log, id, 0)
    ensures InLog(log, id, got)
  {
    var i :| 0 <= i < |log| && log[i].result.testId == id;
    if i < got {
      assert ResultsOf(log[..got])[i] == log[i].result;
      ReadIsReported(s.verdicts, log[i].result);
      assert false;
    }
  }

  /** A live worker, or one with a complete frame, can be brought to have a complete frame. */
  lemma Completes(w: Worker)
    returns (outcome: HarnessOutcome, size: nat)
    requires SentOk(w) && w.collecting && (w.alive || ReadFrame(w.sent).Got?)
    ensures ToQueue(WorkerStep(WorkerStep(w, FinishTest(outcome, 0)), Write(size))).Some?
  {
    outcome, size := Returned(0, ""), 0;
    var w1 := WorkerStep(w, FinishTest(outcome, 0));
    if w.alive {
      SmallResult(w.payload);
      var f := FrameOf(w1.result.value);
      size := |f|;
      assert f[..|f|] == f;
      FrameReadsBack(EncodeResult(w1.result.value));
    }
  }

  lemma SmallResult(p: TestPayload)
    ensures Fits(RunWorker(p, Returned(0, ""), 0))
  {
    assert Utf8("") == [];
  }

  // ------------------------------------------------------------- Zygote steps only

  function NetRun(n: Net, ls: seq<NetLabel>): Net
    decreases |ls|
  {
    if ls == [] then n else NetRun(NetStep(n, ls[0]), ls[1..])
  }

  lemma {:induction false} NetRunConcat(n: Net, a: seq<NetLabel>, b: seq<NetLabel>)
    ensures NetRun(n, a + b) == NetRun(NetRun(n, a), b)
    decreases |a|
  {
    if a == [] {
      assert a + b == b;
    } else {
      assert (a + b)[1..] == a[1..] + b;
      NetRunConcat(NetStep(n, a[0]), a[1..], b);
    }
  }

  lemma {:induction false} ZygotesReach(y0: Sys, t0: nat, labels: seq<Label>, y: Sys, t: nat, ls: seq<NetLabel>)
    returns (more: seq<Label>)
    requires y0.sched.maxWorkers > 0 && y.sched.maxWorkers > 0 && Reaches(y0, t0, labels, y, t)
    ensures Reaches(y0, t0, more, y.(net := NetRun(y.net, ls)), t)
    decreases |ls|
  {
    more := labels;
    if ls != [] {
      ZygoteExtends(y0, t0, labels, y, t, ls[0]);
      more := ZygotesReach(y0, t0, labels + [Zygote(ls[0])], y.(net := NetStep(y.net, ls[0])), t, ls[1..]);
    }
  }

  /** If some active worker can answer, its result can be queued. */
  lemma AnswerQueued(n: Net, next: nat, id: u32) returns (ls: seq<NetLabel>)
    requires NetOk(n, next) && n.up && id in n.workers && n.workers[id].collecting && !Mute(n.workers[id])
    ensures var n' := NetRun(n, ls); n'.up && InLog(n'.log, id, n'.got)
  {
    var outcome, size := Completes(n.workers[id]);
    var finish, write := WorkerActs(id, FinishTest(outcome, 0)), WorkerActs(id, Write(size));
    var n1 := NetStep(n, finish);
    var n2 := NetStep(n1, write);
    NetStepKeeps(n, next, finish);
    NetStepKeeps(n1, next, write);
    QueueOne(n2, next, id);
    ls := [finish, write, CollectorSends(id)];
    ThreeSteps(n, finish, write, CollectorSends(id));
  }

  lemma ThreeSteps(n: Net, a: NetLabel, b: NetLabel, c: NetLabel)
    ensures NetRun(n, [a, b, c]) == NetStep(NetStep(NetStep(n, a), b), c)
  {
    assert [a, b, c][1..] == [b, c] && [b, c][1..] == [c] && [c][1..] == [];
    var n2 := NetStep(NetStep(n, a), b);
    assert NetRun(n2, [c]) == NetStep(n2, c);
    assert NetRun(NetStep(n, a), [b, c]) == NetRun(n2, [c]);
  }

  lemma QueueOne(n: Net, next: nat, id: u32)
    requires NetOk(n, next) && n.up && id in n.workers && ToQueue(n.workers[id]).Some?
    ensures var n' := NetStep(n, CollectorSends(id)); n'.up && InLog(n'.log, id, n'.got)
  {
    var q := ToQueue(n.workers[id]).value;
    assert q.result.testId == id;
    assert NetStep(n, CollectorSends(id)) == Enqueue(n, id, q);
    InLogGrows(n.log, q, n.got);
  }

  // ------------------------------------------------------------------ it is flushed

  ghost predicate Flushed(n: Net) { n.up && n.writing == [] && n.channel == [] }

  lemma {:induction false} Flush(n: Net) returns (ls: seq<NetLabel>)
    requires n.up
    ensures var n' := NetRun(n, ls); Flushed(n') && n'.log == n.log && n'.got == n.got
    decreases |n.channel|
  {
    var write := ForwarderWrites(|n.writing|);
    var n1 := NetStep(n, write);
    ls := [write];
    assert [write][1..] == [];
    if n1.channel != [] {
      var rest := Flush(NetStep(n1, ForwarderTakes));
      assert [ForwarderTakes][1..] == [];
      NetRunConcat(n, ls + [ForwarderTakes], rest);
      NetRunConcat(n, ls, [ForwarderTakes]);
      ls := ls + [ForwarderTakes] + rest;
    }
  }

  lemma {:induction false} NetRunOk(n: Net, next: nat, ls: seq<NetLabel>)
    requires NetOk(n, next)
    ensures NetOk(NetRun(n, ls), next)
    decreases |ls|
  {
    if ls != [] {
      NetStepKeeps(n, next, ls[0]);
      NetRunOk(NetStep(n, ls[0]), next, ls[1..]);
    }
  }

  // --------------------------------------------------------------------- it is read

  /** How many results are read once the complete frames on the socket are. */
  ghost function Arrivals(n: Net): nat { n.got + |ParseAll(n.pipe)| }

  /** A complete frame on the socket carries the result of `id`. */
  ghost predicate Arrived(log: seq<Queued>, got: nat, end: nat, id: u32) {
    exists i :: got <= i < end && i < |log| && log[i].result.testId == id
  }

  ghost predicate ArrivedAt(n: Net, id: u32) { Arrived(n.log, n.got, Arrivals(n), id) }

  /** Reading neither makes nor loses frames. */
  lemma ConsumeArrivals(n: Net)
    ensures Arrivals(Consume(n)) == Arrivals(n)
  {}

  lemma ArrivedMeansFrame(n: Net, id: u32)
    requires ArrivedAt(n, id)
    ensures ReadFrame(n.pipe).Got?
  {}

  /** With everything flushed, all that is unread has arrived. */
  lemma FlushedArrived(n: Net, next: nat, id: u32)
    requires NetOk(n, next) && Flushed(n) && InLog(n.log, id, n.got)
    ensures ArrivedAt(n, id)
  {
    NetParses(n, next);
  }

  lemma ReadOneMore(y: Sys, t: nat)
    requires y.sched.maxWorkers > 0 && NetOk(y.net, y.sched.next)
    requires AtCap(y.sched) && ReadFrame(y.net.pipe).Got?
    ensures OnTime(y, t, Look(t, y.net.pipe)) && y.net.got < |y.net.log|
    ensures var y' := Next(y, Look(t, y.net.pipe));
            y'.sched == Record(y.sched, y.net.log[y.net.got].result) && y'.net == Consume(y.net)
  {
    var a := Quiet(t, y.net.pipe);
    Receives(y.net, y.sched.next);
    ReadTakes(y, a, true);
    ReadRecords(y.sched, a, y.net.log[y.net.got].result);
  }

  lemma RecordFrees(s: Sched, r: TestResult)
    requires Laws(s) && AtCap(s)
    ensures var s' := Record(s, r);
            && s'.pc == s.pc && s'.next == s.next && s'.maxWorkers == s.maxWorkers && s'.tests == s.tests
            && if r.testId in s.active then |s'.active| < s'.maxWorkers else s'.active == s.active
  {
    if r.testId in s.active {
      RemoveOne(s.active, r.testId);
    }
  }

  /** A slot is free. */
  ghost predicate Free(s: Sched) { s.pc.Waiting? && |s.active| < s.maxWorkers }

  /** Waiting at the cap for `id`, whose result has arrived. */
  ghost predicate Pending(s: Sched, n: Net, id: u32) {
    AtCap(s) && Laws(s) && NetOk(n, s.next) && id in s.active && ArrivedAt(n, id)
  }

  /** What reading leaves alone. */
  ghost predicate SameRun(y: Sys, y': Sys) {
    && y'.cfg == y.cfg && y'.net.up == y.net.up && y'.sched.next == y.sched.next
    && y'.sched.tests == y.sched.tests && y'.sched.maxWorkers == y.sched.maxWorkers
  }

  lemma ArrivedShift(log: seq<Queued>, got: nat, end: nat, id: u32)
    requires Arrived(log, got, end, id) && got < |log| && log[got].result.testId != id
    ensures Arrived(log, got + 1, end, id)
  {
    var i :| got <= i < end && i < |log| && log[i].result.testId == id;
    assert i != got;
  }

  lemma ReadShrinks(n: Net, id: u32)
    requires ArrivedAt(n, id)
    ensures n.got < |n.log| && |Consume(n).pipe| < |n.pipe| && Consume(n).up == n.up
    ensures n.log[n.got].result.testId != id ==> ArrivedAt(Consume(n), id)
  {
    ArrivedMeansFrame(n, id);
    ConsumeArrivals(n);
    if n.log[n.got].result.testId != id {
      ArrivedShift(n.log, n.got, Arrivals(n), id);
    }
  }

  lemma ReadOnce(y: Sys, t: nat, id: u32)
    requires Pending(y.sched, y.net, id)
    ensures var l := Look(t, y.net.pipe); var y' := Next(y, l);
            && OnTime(y, t, l) && SameRun(y, y') && |y'.net.pipe| < |y.net.pipe|
            && (Free(y'.sched) || Pending(y'.sched, y'.net, id))
  {
    ArrivedMeansFrame(y.net, id);
    ReadOneMore(y, t);
    ReadShrinks(y.net, id);
    var r := y.net.log[y.net.got].result;
    ConsumeKeeps(y.net, y.sched.next);
    RecordKeeps(y.sched, r);
    RecordFrees(y.sched, r);
  }

  /** Reading frees a slot once a result of an active worker has arrived. */
  lemma {:induction false} ReadUntilFree(y0: Sys, t0: nat, labels: seq<Label>, y: Sys, t: nat, id: u32)
    returns (more: seq<Label>, y': Sys)
    requires y0.sched.maxWorkers > 0 && y.sched.maxWorkers > 0 && Reaches(y0, t0, labels, y, t)
    requires Pending(y.sched, y.net, id)
    ensures Reaches(y0, t0, more, y', t) && SameRun(y, y') && Free(y'.sched)
    decreases |y.net.pipe|
  {
    var l := Look(t, y.net.pipe);
    ReadOnce(y, t, id);
    Extend(y0, t0, labels, y, t, l);
    more, y' := labels + [l], Next(y, l);
    if !Free(y'.sched) {
      more, y' := ReadUntilFree(y0, t0, more, y', t, id);
    }
  }

  // ------------------------------------------------------------------ the next test

  /** Some timely continuation has forked a worker for the next test. */
  ghost predicate CanStart(y: Sys, t: nat)
    requires y.sched.maxWorkers > 0
  {
    exists more :: Timely(y, t, more) && y.sched.next in Trace(y, more).net.workers && Trace(y, more).sched.next > y.sched.next
  }

  /** Some timely continuation has tried to. */
  ghost predicate CanAttempt(y: Sys, t: nat)
    requires y.sched.maxWorkers > 0
  {
    exists more :: Timely(y, t, more) && Trace(y, more).sched.next > y.sched.next
  }

  lemma SamePayloadAt(cfg: Config, s: Sched, s': Sched, i: nat)
    requires i < |s.tests| && s.maxWorkers > 0 && s'.tests == s.tests && s'.maxWorkers == s.maxWorkers
    ensures PayloadAt(cfg, s', i) == PayloadAt(cfg, s, i)
  {}

  lemma FreeStarts(y: Sys, t: nat, labels: seq<Label>, y': Sys)
    requires y.sched.maxWorkers > 0 && y.sched.next < |y.sched.tests| <= 0x1_0000_0000 && y.net.up
    requires Reaches(y, t, labels, y', t) && SameRun(y, y') && Free(y'.sched)
    requires PayloadOk(PayloadAt(y'.cfg, y'.sched, y'.sched.next))
    ensures CanStart(y, t)
  {
    var l := Look(t, []);
    ForksNext(y', t);
    Extend(y, t, labels, y', t, l);
    assert y.sched.next in Trace(y, labels + [l]).net.workers;
  }

  lemma ForksNext(y: Sys, t: nat)
    requires y.sched.maxWorkers > 0 && Dispatching(y.sched) && y.net.up && y.sched.next < 0x1_0000_0000
    requires PayloadOk(PayloadAt(y.cfg, y.sched, y.sched.next))
    ensures var y' := Next(y, Look(t, [])); y.sched.next in y'.net.workers && y'.sched.next == y.sched.next + 1
    ensures OnTime(y, t, Look(t, []))
  {
    SmallId(y.sched.next);
    DispatchForks(y, t);
    DispatchShape(y.sched, Quiet(t, []));
  }

  lemma FreeAttempts(y: Sys, t: nat, labels: seq<Label>, y': Sys)
    requires y.sched.maxWorkers > 0 && y.sched.next < |y.sched.tests|
    requires Reaches(y, t, labels, y', t) && SameRun(y, y') && Free(y'.sched)
    ensures CanAttempt(y, t)
  {
    DispatchFails(y', t);
    Extend(y, t, labels, y', t, Refused(t));
    assert Trace(y, labels + [Refused(t)]).sched.next > y.sched.next;
  }

  // ------------------------------------------------------------- a living Zygote

  /** What is queued can be flushed, read, and the freed slot used. */
  lemma QueuedStarts(y: Sys, t: nat, ls: seq<NetLabel>, id: u32)
    requires AtCap(y.sched) && Laws(y.sched) && NetOk(y.net, y.sched.next) && id in y.sched.active && y.net.up
    requires PayloadsFit(y.cfg, y.sched)
    requires var n := NetRun(y.net, ls); n.up && InLog(n.log, id, n.got)
    ensures CanStart(y, t)
  {
    var flush := Flush(NetRun(y.net, ls));
    NetRunConcat(y.net, ls, flush);
    NetRunOk(y.net, y.sched.next, ls + flush);
    var labels := ZygotesReach(y, t, [], y, t, ls + flush);
    var n := NetRun(y.net, ls + flush);
    FlushedArrived(n, y.sched.next, id);
    var y1 := y.(net := n);
    var more, y' := ReadUntilFree(y, t, labels, y1, t, id);
    SamePayloadAt(y.cfg, y.sched, y'.sched, y.sched.next);
    FreeStarts(y, t, more, y');
  }

  lemma AnswererStarts(y: Sys, t: nat, id: u32)
    requires SchedOk(y.sched) && NetOk(y.net, y.sched.next) && InStep(y.sched, y.net.log, y.net.got)
    requires PayloadsFit(y.cfg, y.sched)
    requires AtCap(y.sched) && y.net.up && id in y.sched.active && id in y.net.workers && !Mute(y.net.workers[id])
    requires y.net.workers[id].collecting || !y.net.workers[id].alive || InLog(y.net.log, id, 0)
    ensures CanStart(y, t)
  {
    if y.net.workers[id].collecting {
      var ls := AnswerQueued(y.net, y.sched.next, id);
      QueuedStarts(y, t, ls, id);
    } else {
      QueuedUnread(y.sched, y.net.log, y.net.got, id);
      QueuedStarts(y, t, [], id);
    }
  }

  lemma HopeStarts(y: Sys, t: nat)
    requires SchedOk(y.sched) && NetOk(y.net, y.sched.next) && InStep(y.sched, y.net.log, y.net.got)
    requires PayloadsFit(y.cfg, y.sched)
    requires AtCap(y.sched) && y.net.up && Attended(y.net.workers, y.net.log)
    requires !Hopeless(y.net, y.sched.active.Keys)
    ensures CanStart(y, t)
  {
    if i :| y.net.got <= i < |y.net.log| && y.net.log[i].result.testId in y.sched.active {
      QueuedStarts(y, t, [], y.net.log[i].result.testId);
    } else {
      var id :| id in y.sched.active && id in y.net.workers && !Mute(y.net.workers[id]);
      AnswererStarts(y, t, id);
    }
  }

  /**
   In every run that waits for capacity while the Zygote lives, a worker for the
   next test can still be forked if and only if some active worker can still
   answer, or has answered.
   */
  lemma CapacityIff(cfg: Config, tests: seq<RunnableTest>, maxWorkers: nat, now: nat, labels: seq<Label>, t: nat)
    requires Startable(cfg, tests, maxWorkers)
    requires var y := RunOf(cfg, tests, maxWorkers, now, labels); AtCap(y.sched) && y.net.up
    ensures var y := RunOf(cfg, tests, maxWorkers, now, labels);
            CanStart(y, t) <==> !Hopeless(y.net, y.sched.active.Keys)
  {
    var y := RunOf(cfg, tests, maxWorkers, now, labels);
    RunInv(cfg, tests, maxWorkers, now, labels);
    RunAttended(cfg, tests, maxWorkers, now, labels);
    if Hopeless(y.net, y.sched.active.Keys) {
      forall more
        ensures Trace(y, more).sched.next == y.sched.next
      {
        TraceHangs(y, more);
      }
    } else {
      HopeStarts(y, t);
    }
  }

  // --------------------------------------------------------------- a dead Zygote

  /** The Zygote is gone, and no complete frame it left is of an active worker. */
  ghost predicate Orphaned(n: Net, active: set<u32>) {
    !n.up && forall id :: id in active ==> !ArrivedAt(n, id)
  }

  ghost predicate Stranded(y: Sys) { AtCap(y.sched) && Orphaned(y.net, y.sched.active.Keys) }

  ghost predicate StillStranded(y: Sys, y': Sys) {
    Stranded(y') && y'.sched.next == y.sched.next && y'.sched.active == y.sched.active
  }

  lemma NetStranded(n: Net, active: set<u32>, l: NetLabel)
    requires Orphaned(n, active)
    ensures Orphaned(NetStep(n, l), active)
  {
    var n' := NetStep(n, l);
    assert !n'.up && n'.pipe == n.pipe && n'.log == n.log && n'.got == n.got;
    forall id | id in active
      ensures !ArrivedAt(n', id)
    {
      assert !ArrivedAt(n, id);
    }
  }

  lemma ConsumeOrphaned(n: Net, active: set<u32>)
    requires Orphaned(n, active)
    ensures Orphaned(Consume(n), active)
  {
    ConsumeArrivals(n);
    forall id | id in active
      ensures !ArrivedAt(Consume(n), id)
    {
      assert !ArrivedAt(n, id);
    }
  }

  lemma FirstArrived(n: Net)
    requires ReadFrame(n.pipe).Got? && n.got < |n.log|
    ensures ArrivedAt(n, n.log[n.got].result.testId)
  {
    assert n.got < Arrivals(n);
  }

  lemma ReadStranded(s: Sched, n: Net, a: Answer)
    requires SchedOk(s) && NetOk(n, s.next) && AtCap(s) && Orphaned(n, s.active.Keys) && a.avail == n.pipe
    ensures var s' := Step(s, a);
            s'.pc == s.pc && s'.active == s.active && s'.next == s.next && s'.maxWorkers == s.maxWorkers
  {
    Receives(n, s.next);
    if ReadFrame(n.pipe).Got? {
      FirstArrived(n);
      ReadRecords(s, a, n.log[n.got].result);
    } else {
      NothingRead(s, a);
    }
  }

  lemma NextStranded(y: Sys, l: Label)
    requires Inv(y) && Stranded(y)
    ensures StillStranded(y, Next(y, l))
  {
    match l
    case Supervisor(a, _) =>
      if a.avail == y.net.pipe && !MidFrame(y.net) {
        ReadStranded(y.sched, y.net, a);
        ConsumeOrphaned(y.net, y.sched.active.Keys);
      }
    case Zygote(step) => NetStranded(y.net, y.sched.active.Keys, step);
  }

  lemma {:induction false} TraceStranded(y: Sys, labels: seq<Label>)
    requires Inv(y) && Stranded(y)
    ensures Inv(Trace(y, labels)) && StillStranded(y, Trace(y, labels))
  {
    if labels != [] {
      var k := |labels| - 1;
      TraceStranded(y, labels[..k]);
      NextKeeps(Trace(y, labels[..k]), labels[k]);
      NextStranded(Trace(y, labels[..k]), labels[k]);
    }
  }

  /**
   In every run that waits for capacity after the Zygote has died, the loop can
   be left if and only if a complete frame left on the socket is of an active
   worker.
   */
  lemma DeadCapacityIff(cfg: Config, tests: seq<RunnableTest>, maxWorkers: nat, now: nat, labels: seq<Label>, t: nat)
    requires Startable(cfg, tests, maxWorkers)
    requires var y := RunOf(cfg, tests, maxWorkers, now, labels); AtCap(y.sched) && !y.net.up
    ensures var y := RunOf(cfg, tests, maxWorkers, now, labels);
            CanAttempt(y, t) <==> exists id :: id in y.sched.active && ArrivedAt(y.net, id)
  {
    var y := RunOf(cfg, tests, maxWorkers, now, labels);
    RunInv(cfg, tests, maxWorkers, now, labels);
    if id :| id in y.sched.active && ArrivedAt(y.net, id) {
      var more, y' := ReadUntilFree(y, t, [], y, t, id);
      FreeAttempts(y, t, more, y');
    } else {
      forall more
        ensures Trace(y, more).sched.next == y.sched.next
      {
        TraceStranded(y, more);
      }
    }
  }
}
