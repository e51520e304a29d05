/**
 The whole run: Supervisor, Zygote, forked workers, their collector threads
 and the single forwarder, down to the bytes on the sockets.
 */
module RunProtocol {
  import opened Wire
  import opened Discovery
  import opened Resolver
  import opened SchedulerMachine

  // ------------------------------------------------------------------- messages

  function ScopeName(scope: FixtureScope): string {
    match scope
    case FunctionScope => "function"
    case ClassScope => "class"
    case ModuleScope => "module"
    case SessionScope => "session"
  }

  function FixtureInfos(fs: seq<ResolvedFixture>): seq<FixtureInfo> {
    seq(|fs|, i requires 0 <= i < |fs| => FixtureInfo(fs[i].name, ScopeName(fs[i].scope)))
  }

  /** What the scheduler is started with besides the tests; one log descriptor per slot. */
  datatype Config = Config(logFds: seq<i32>, debugSocketPath: string)

  function PayloadFor(cfg: Config, test: RunnableTest, id: u32, slot: nat): TestPayload {
    var fd: i32 := if slot < |cfg.logFds| then cfg.logFds[slot] else -1;
    TestPayload(id, test.filePath, test.testName, test.isAsync, FixtureInfos(test.fixtures), fd, cfg.debugSocketPath)
  }

  /** The payload's length survives the cast to 32 bits. */
  predicate PayloadOk(p: TestPayload) { |EncodePayload(p)| < 0x1_0000_0000 }

  /** The bytes `dispatch_test` writes on the command socket. */
  function ForkCommand(p: TestPayload): seq<byte> { [CMD_FORK] + Frame(EncodePayload(p)) }

  /** What the Zygote's command loop makes of them. */
  function ForkRequest(command: seq<byte>): Option<TestPayload> {
    if command == [] || command[0] != CMD_FORK then None
    else match ReadFrame(command[1..])
      case Bad => None
      case Got(body, _) => DecodePayload(body)
  }

  datatype HarnessOutcome = Returned(status: byte, message: string) | Raised(error: string)

  /** The result carries the id of the payload, whatever the harness does. */
  function RunWorker(p: TestPayload, outcome: HarnessOutcome, ns: u64): TestResult {
    match outcome
    case Returned(status, message) => TestResult(p.testId, status, ns, message)
    case Raised(error) => TestResult(p.testId, STATUS_HARNESS_ERROR, ns, "PyO3 Error: " + error)
  }

  function FrameOf(r: TestResult): seq<byte> { Frame(EncodeResult(r)) }

  // ---------------------------------------------------------------------- state

  /** A forked process and the thread that reads its socket. */
  datatype Worker = Worker(
    payload: TestPayload, result: Option<TestResult>, sent: seq<byte>, alive: bool, collecting: bool)

  /** A result a collector has queued, with the bytes it queued for it. */
  datatype Queued = Queued(result: TestResult, frame: seq<byte>)

  /**
   Zygote, workers and sockets. `channel` is the mpsc queue, `writing` what the
   forwarder still has to write of the frame it took, `pipe` the unread bytes of
   the result socket. `log` records everything queued, in order, and `got` how
   many frames the scheduler has consumed.
   */
  datatype Net = Net(
    up: bool, workers: map<u32, Worker>, channel: seq<seq<byte>>, writing: seq<byte>, pipe: seq<byte>,
    log: seq<Queued>, got: nat)

  datatype Sys = Sys(cfg: Config, sched: Sched, net: Net)

  /** What a worker process, or the thread reading its socket, may do. */
  datatype WorkerAct = FinishTest(outcome: HarnessOutcome, ns: u64) | Write(n: nat) | Exit | Abandon

  datatype NetLabel =
    | WorkerActs(w: u32, act: WorkerAct)
    | CollectorSends(w: u32)
    | ForwarderTakes
    | ForwarderWrites(n: nat)
    | ZygoteDies

  datatype Label = Supervisor(answer: Answer, forked: bool) | Zygote(step: NetLabel)

  function Boot(cfg: Config, tests: seq<RunnableTest>, maxWorkers: nat, now: nat): Sys {
    Sys(cfg, Init(tests, maxWorkers, now), Net(true, map[], [], [], [], [], 0))
  }

  // ---------------------------------------------------- Zygote and worker steps

  function WorkerStep(w: Worker, act: WorkerAct): Worker {
    match act
    case FinishTest(outcome, ns) =>
      var r := RunWorker(w.payload, outcome, ns);
      if w.alive && w.result.None? && |EncodeResult(r)| < 0x1_0000_0000 then w.(result := Some(r)) else w
    case Write(n) =>
      if w.alive && w.result.Some? then
        var frame := FrameOf(w.result.value);
        w.(sent := frame[..Min(|w.sent| + n, |frame|)])
      else w
    case Exit => w.(alive := false)
    case Abandon =>
      if !w.alive && ReadFrame(w.sent).Bad? then w.(collecting := false) else w
  }

  /** A collector forwards its worker's frame once it has read it completely. */
  function ToQueue(w: Worker): Option<Queued> {
    match ReadFrame(w.sent)
    case Bad => None
    case Got(_, rest) =>
      if w.collecting && w.result.Some? then Some(Queued(w.result.value, w.sent[..|w.sent| - |rest|])) else None
  }

  function CollectStep(n: Net, id: u32): Net
    requires id in n.workers
  {
    var q := ToQueue(n.workers[id]);
    if n.up && q.Some? then Enqueue(n, id, q.value) else n
  }

  function Enqueue(n: Net, id: u32, q: Queued): Net
    requires id in n.workers
  {
    n.(workers := n.workers[id := n.workers[id].(collecting := false)],
       channel := n.channel + [q.frame], log := n.log + [q])
  }

  function Take(n: Net): Net {
    if n.up && n.writing == [] && n.channel != [] then n.(writing := n.channel[0], channel := n.channel[1..]) else n
  }

  function Forward(n: Net, count: nat): Net {
    var k := Min(count, |n.writing|);
    if n.up then n.(pipe := n.pipe + n.writing[..k], writing := n.writing[k..]) else n
  }

  function AllDead(ws: map<u32, Worker>): map<u32, Worker> {
    map id | id in ws :: ws[id].(alive := false, collecting := false)
  }

  function Die(n: Net): Net {
    n.(up := false, workers := AllDead(n.workers), channel := [], writing := [])
  }

  function NetStep(n: Net, l: NetLabel): Net {
    match l
    case WorkerActs(id, act) =>
      if id in n.workers then n.(workers := n.workers[id := WorkerStep(n.workers[id], act)]) else n
    case CollectorSends(id) => if id in n.workers then CollectStep(n, id) else n
    case ForwarderTakes => Take(n)
    case ForwarderWrites(count) => Forward(n, count)
    case ZygoteDies => Die(n)
  }

  // ---------------------------------------------------------- Supervisor steps

  predicate Reading(s: Sched, a: Answer) {
    || (s.pc.Waiting? && |s.active| >= s.maxWorkers)
    || (s.pc.Draining? && s.collected < |s.tests| && a.now < s.pc.deadline)
  }

  predicate Dispatching(s: Sched) {
    s.pc.Waiting? && |s.active| < s.maxWorkers && s.next < |s.tests|
  }

  /** The socket holds the beginning of a frame whose rest is still to come. */
  predicate MidFrame(n: Net) {
    n.up && n.pipe != [] && ReadFrame(n.pipe).Bad?
  }

  /** A read takes one whole frame, or fails and takes whatever is left. */
  function Consume(n: Net): Net {
    match ReadFrame(n.pipe)
    case Got(_, rest) => n.(pipe := rest, got := n.got + 1)
    case Bad => n.(pipe := [])
  }

  function Spawn(n: Net, p: TestPayload): Net {
    n.(workers := n.workers[p.testId := Worker(p, None, [], true, true)])
  }

  function PayloadAt(cfg: Config, s: Sched, i: nat): (p: TestPayload)
    requires i < |s.tests| && s.maxWorkers > 0
    ensures p.testId == TestId(i)
  {
    PayloadFor(cfg, s.tests[i], TestId(i), TestId(i) % s.maxWorkers)
  }

  /** The Zygote's side of a dispatch, if it is there to fork. */
  function Fork(n: Net, command: seq<byte>): Option<Net> {
    match ForkRequest(command)
    case Some(p) => if n.up then Some(Spawn(n, p)) else None
    case None => None
  }

  /** A dispatch succeeds only when the Zygote replies; a failing one may have forked. */
  function DispatchNet(n: Net, command: seq<byte>, failed: bool, forked: bool): Option<Net> {
    if failed then Some(if forked && Fork(n, command).Some? then Fork(n, command).value else n)
    else Fork(n, command)
  }

  function ReadStep(y: Sys, a: Answer): Sys
    requires y.sched.maxWorkers > 0
  {
    if a.avail == y.net.pipe && !MidFrame(y.net) then y.(sched := Step(y.sched, a), net := Consume(y.net)) else y
  }

  function DispatchStep(y: Sys, a: Answer, forked: bool): Sys
    requires y.sched.maxWorkers > 0 && Dispatching(y.sched)
  {
    var n := DispatchNet(y.net, ForkCommand(PayloadAt(y.cfg, y.sched, y.sched.next)), a.dispatchError.Some?, forked);
    if n.Some? then y.(sched := Step(y.sched, a), net := n.value) else y
  }

  /** The scheduler reads what the socket holds, or dispatches, or only looks around. */
  function SupervisorStep(y: Sys, a: Answer, forked: bool): Sys
    requires y.sched.maxWorkers > 0
  {
    if Reading(y.sched, a) then ReadStep(y, a)
    else if Dispatching(y.sched) then DispatchStep(y, a, forked)
    else y.(sched := Step(y.sched, a))
  }

  function Next(y: Sys, l: Label): Sys
    requires y.sched.maxWorkers > 0
  {
    match l
    case Supervisor(a, forked) => SupervisorStep(y, a, forked)
    case Zygote(step) => y.(net := NetStep(y.net, step))
  }

  lemma SupervisorConfig(y: Sys, a: Answer, forked: bool)
    requires y.sched.maxWorkers > 0
    ensures var y' := SupervisorStep(y, a, forked);
            y'.cfg == y.cfg && (y'.sched == y.sched || y'.sched == Step(y.sched, a))
  {}

  lemma NextConfig(y: Sys, l: Label)
    requires y.sched.maxWorkers > 0
    ensures var y' := Next(y, l);
            y'.cfg == y.cfg && y'.sched.maxWorkers == y.sched.maxWorkers && y'.sched.tests == y.sched.tests
  {
    if l.Supervisor? {
      SupervisorConfig(y, l.answer, l.forked);
      StepConfig(y.sched, l.answer);
    }
  }

  /** Labels that are not enabled leave the state alone, so every sequence is a run. */
  function Trace(y: Sys, labels: seq<Label>): (y': Sys)
    requires y.sched.maxWorkers > 0
    ensures y'.sched.maxWorkers == y.sched.maxWorkers
  {
    if labels == [] then y
    else
      var k := |labels| - 1;
      var before := Trace(y, labels[..k]);
      NextConfig(before, labels[k]);
      Next(before, labels[k])
  }
}
