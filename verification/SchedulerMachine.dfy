/**
 The scheduler as a machine: each time it asks its environment something
 (is a shutdown requested, did the fork succeed, what does the result socket
 deliver, what time is it) it consumes one Answer and moves on.
 */
module SchedulerMachine {
  import opened Wire
  import opened Strings
  import opened Resolver
  import opened Reporting

  datatype ActiveWorker = ActiveWorker(testName: string, slot: nat, startTime: nat)

  /** Why a test was reported finished; kept as history beside the events. */
  datatype Verdict =
    | Matched(id: u32, result: TestResult)       // a result of an active worker
    | Late(id: u32, result: TestResult)          // a result whose id was not active
    | Crashed(id: u32)                           // declared stale
    | DispatchFailed(id: u32, error: string)

  predicate IsResult(v: Verdict) { v.Matched? || v.Late? }

  /**
   One answer of the environment. `avail` is what the result socket delivers
   before it times out or ends, `later` the clock after that read, and `order`
   the order in which the hash map of active workers is iterated.
   */
  datatype Answer = Answer(
    now: nat, shutdown: bool, dispatchError: Option<string>, avail: seq<byte>, later: nat, order: seq<u32>)

  datatype Pc = Top | Waiting | Draining(deadline: nat) | Done

  datatype Sched = Sched(
    tests: seq<RunnableTest>, maxWorkers: nat, startTime: nat,
    pc: Pc, next: nat, active: map<u32, ActiveWorker>,
    passed: nat, failed: nat, collected: nat,
    events: seq<MachineEvent>, verdicts: seq<Verdict>)

  const DRAIN_MS: nat := 10_000
  const STALE_MS: nat := 3_000

  /** `i as u32`. */
  function TestId(i: nat): u32 { i % 0x1_0000_0000 }

  function Init(tests: seq<RunnableTest>, maxWorkers: nat, now: nat): Sched {
    Sched(tests, maxWorkers, now, Top, 0, map[], 0, 0, 0, [RunStart(|tests|)], [])
  }

  // ------------------------------------------------------------------ outcomes

  function Status(r: TestResult): string { if r.status == STATUS_PASS then "pass" else "fail" }

  function Message(r: TestResult): Option<string> { if r.message == "" then None else Some(r.message) }

  function LateName(id: u32): string { "test_" + Decimal(id) }

  function ResultEvent(name: string, r: TestResult): MachineEvent {
    TestFinished(name, Status(r), r.durationNs / 1_000_000, Message(r))
  }

  /** Count one finish event. */
  function Report(s: Sched, e: MachineEvent, v: Verdict): Sched
    requires e.TestFinished?
  {
    s.(events := s.events + [e], verdicts := s.verdicts + [v], collected := s.collected + 1,
       passed := s.passed + (if e.status == "pass" then 1 else 0),
       failed := s.failed + (if e.status == "pass" then 0 else 1))
  }

  function Record(s: Sched, r: TestResult): Sched {
    if r.testId in s.active then
      var s' := s.(active := s.active - {r.testId});
      Report(s', ResultEvent(s.active[r.testId].testName, r), Matched(r.testId, r))
    else Report(s, ResultEvent(LateName(r.testId), r), Late(r.testId, r))
  }

  /** The result a read yields, if the delivered bytes start with a decodable frame. */
  function Received(avail: seq<byte>): Option<TestResult> {
    match ReadFrame(avail)
    case Bad => None
    case Got(body, _) => DecodeResult(body)
  }

  function CrashEvent(name: string): MachineEvent {
    TestFinished(name, "fail", 0, Some("CRASHED - no response"))
  }

  /** The stale workers in iteration order, once each. */
  function StaleIds(active: map<u32, ActiveWorker>, order: seq<u32>, now: nat): (ids: seq<u32>)
    ensures forall id :: id in ids ==> id in active && now > active[id].startTime + 3_000 && id in order
    ensures forall i, j :: 0 <= i < j < |ids| ==> ids[i] != ids[j]
    ensures forall id :: id in active && id in order && now > active[id].startTime + 3_000 ==> id in ids
    decreases |order|
  {
    if order == [] then []
    else if order[0] in active && now > active[order[0]].startTime + STALE_MS then
      [order[0]] + StaleIds(active - {order[0]}, order[1..], now)
    else StaleIds(active, order[1..], now)
  }

  /** Any order is completed to an iteration over all dispatched ids. */
  function FullOrder(order: seq<u32>, n: nat): (r: seq<u32>)
    ensures forall i :: 0 <= i < n ==> TestId(i) in r
  {
    var all: seq<u32> := seq(n, (i: nat) => TestId(i));
    assert forall i :: 0 <= i < n ==> (order + all)[|order| + i] == TestId(i);
    order + all
  }

  function Declare(s: Sched, ids: seq<u32>): Sched
    decreases |ids|
  {
    if ids == [] || ids[0] !in s.active then s
    else
      var s' := s.(active := s.active - {ids[0]});
      Declare(Report(s', CrashEvent(s.active[ids[0]].testName), Crashed(ids[0])), ids[1..])
  }

  // --------------------------------------------------------------------- steps

  function Emit(s: Sched, e: MachineEvent): Sched { s.(events := s.events + [e]) }

  function Drain(s: Sched, now: nat): Sched { s.(pc := Draining(now + DRAIN_MS)) }

  /** `on_test_start`, and on to the next test. */
  function Start(s: Sched): Sched
    requires s.next < |s.tests|
  {
    var test := s.tests[s.next];
    Emit(s, TestStart(test.testName, test.filePath)).(next := s.next + 1, pc := Top)
  }

  function Forked(s: Sched, id: u32, w: ActiveWorker): Sched {
    s.(active := s.active[id := w])
  }

  function NotForked(s: Sched, id: u32, name: string, error: string): Sched {
    Report(s, TestFinished(name, "fail", 0, Some(error)), DispatchFailed(id, error))
  }

  function Dispatch(s: Sched, a: Answer): Sched
    requires s.next < |s.tests| && s.maxWorkers > 0
  {
    var id, name := TestId(s.next), s.tests[s.next].testName;
    if a.dispatchError.None? then Forked(Start(s), id, ActiveWorker(name, id % s.maxWorkers, a.now))
    else NotForked(Start(s), id, name, a.dispatchError.value)
  }

  function Collect(s: Sched, got: Option<TestResult>): Sched {
    if got.Some? then Record(s, got.value) else s
  }

  function DrainOnce(s: Sched, got: Option<TestResult>, stale: seq<u32>): Sched {
    if got.Some? then Record(s, got.value) else Declare(s, stale)
  }

  function Finish(s: Sched, now: nat): Sched {
    var ms := if now < s.startTime then 0 else now - s.startTime;
    Emit(s, RunFinished(s.passed, s.failed, 0, ms)).(pc := Done)
  }

  function StepOn(s: Sched, a: Answer, got: Option<TestResult>, stale: seq<u32>): Sched
    requires s.maxWorkers > 0
  {
    match s.pc
    case Top =>
      if s.next >= |s.tests| then Drain(s, a.now)
      else if a.shutdown then Drain(Emit(s, Error("Shutdown requested")), a.now)
      else s.(pc := Waiting)
    case Waiting =>
      if |s.active| >= s.maxWorkers then Collect(s, got)
      else if s.next < |s.tests| then Dispatch(s, a)
      else s
    case Draining(deadline) =>
      if s.collected < |s.tests| && a.now < deadline then DrainOnce(s, got, stale)
      else Finish(s, a.now)
    case Done => s
  }

  function Step(s: Sched, a: Answer): Sched
    requires s.maxWorkers > 0
  {
    StepOn(s, a, Received(a.avail), StaleIds(s.active, FullOrder(a.order, s.next), a.later))
  }

  function Exec(s: Sched, answers: seq<Answer>): (s': Sched)
    requires s.maxWorkers > 0
    ensures s'.maxWorkers == s.maxWorkers
  {
    if answers == [] then s
    else
      var k := |answers| - 1;
      var before := Exec(s, answers[..k]);
      StepConfig(before, answers[k]);
      Step(before, answers[k])
  }

  lemma {:induction false} DeclareConfig(s: Sched, ids: seq<u32>)
    ensures var s' := Declare(s, ids);
            s' == s.(active := s'.active, events := s'.events, verdicts := s'.verdicts,
                     passed := s'.passed, failed := s'.failed, collected := s'.collected)
    decreases |ids|
  {
    if ids != [] && ids[0] in s.active {
      var s1 := Report(s.(active := s.active - {ids[0]}), CrashEvent(s.active[ids[0]].testName), Crashed(ids[0]));
      DeclareConfig(s1, ids[1..]);
    }
  }

  lemma StepOnConfig(s: Sched, a: Answer, got: Option<TestResult>, stale: seq<u32>)
    requires s.maxWorkers > 0
    ensures var s' := StepOn(s, a, got, stale); s'.tests == s.tests && s'.maxWorkers == s.maxWorkers && s'.startTime == s.startTime
  {
    match s.pc
    case Top =>
    case Waiting =>
    case Draining(_) => DeclareConfig(s, stale);
    case Done =>
  }

  lemma StepConfig(s: Sched, a: Answer)
    requires s.maxWorkers > 0
    ensures var s' := Step(s, a); s'.tests == s.tests && s'.maxWorkers == s.maxWorkers && s'.startTime == s.startTime
  {
    StepOnConfig(s, a, Received(a.avail), StaleIds(s.active, FullOrder(a.order, s.next), a.later));
  }

  /** Dispatch attempts never run past the tests. */
  predicate Steady(s: Sched) {
    s.next <= |s.tests| && (s.pc.Waiting? ==> s.next < |s.tests|)
  }

  lemma StepSteady(s: Sched, a: Answer, got: Option<TestResult>, stale: seq<u32>)
    requires s.maxWorkers > 0 && Steady(s)
    ensures Steady(StepOn(s, a, got, stale))
  {
    match s.pc
    case Top =>
    case Waiting =>
    case Draining(_) => DeclareConfig(s, stale);
    case Done =>
  }

  lemma DrainOncePc(s: Sched, got: Option<TestResult>, stale: seq<u32>)
    ensures DrainOnce(s, got, stale).pc == s.pc
  {
    DeclareConfig(s, stale);
  }
}
