/** Single steps of a timely run, for building concrete runs. */
module RunSteps {
  import opened Wire
  import opened SchedulerMachine
  import opened Fate
  import opened RunProtocol
  import opened NetInvariant
  import opened RunTheorems
  import opened Timing

  /** A quiet answer: no shutdown request, no dispatch error, no waiting. */
  function Quiet(now: nat, avail: seq<byte>): Answer { Answer(now, false, None, avail, now, []) }

  function Look(now: nat, avail: seq<byte>): Label { Supervisor(Quiet(now, avail), true) }

  lemma TraceSnoc(y: Sys, labels: seq<Label>, l: Label)
    requires y.sched.maxWorkers > 0
    ensures Trace(y, labels + [l]) == Next(Trace(y, labels), l)
  {
    assert (labels + [l])[..|labels|] == labels;
  }

  lemma {:induction false} TraceConcat(y: Sys, a: seq<Label>, b: seq<Label>)
    requires y.sched.maxWorkers > 0
    ensures Trace(y, a + b) == Trace(Trace(y, a), b)
  {
    if b == [] {
      assert a + b == a;
    } else {
      var k := |b| - 1;
      assert a + b == a + b[..k] + [b[k]];
      TraceConcat(y, a, b[..k]);
      TraceSnoc(y, a + b[..k], b[k]);
    }
  }

  /** The labels are a timely run from `y0` at time `t0` to `y`, which is there at time `t`. */
  ghost predicate Reaches(y0: Sys, t0: nat, labels: seq<Label>, y: Sys, t: nat)
    requires y0.sched.maxWorkers > 0
  {
    Trace(y0, labels) == y && Timely(y0, t0, labels) && Clock(t0, labels) <= t
  }

  lemma Extend(y0: Sys, t0: nat, labels: seq<Label>, y: Sys, t: nat, l: Label)
    requires y0.sched.maxWorkers > 0 && y.sched.maxWorkers > 0 && Reaches(y0, t0, labels, y, t) && OnTime(y, t, l)
    ensures Reaches(y0, t0, labels + [l], Next(y, l), if l.Supervisor? then l.answer.later else t)
  {
    TraceSnoc(y0, labels, l);
    assert (labels + [l])[..|labels|] == labels;
  }

  lemma ForkNet(n: Net, p: TestPayload)
    requires n.up && PayloadOk(p)
    ensures DispatchNet(n, ForkCommand(p), false, true) == Some(Spawn(n, p))
  {
    RequestArrives(p);
  }

  /** Dispatching with the Zygote there to fork. */
  lemma DispatchForks(y: Sys, now: nat)
    requires y.sched.maxWorkers > 0 && Dispatching(y.sched) && y.net.up
    requires PayloadOk(PayloadAt(y.cfg, y.sched, y.sched.next))
    ensures Next(y, Look(now, [])) ==
            Sys(y.cfg, Dispatch(y.sched, Quiet(now, [])), Spawn(y.net, PayloadAt(y.cfg, y.sched, y.sched.next)))
  {
    var p := PayloadAt(y.cfg, y.sched, y.sched.next);
    ForkNet(y.net, p);
    StepIsDispatch(y.sched, Quiet(now, []));
    assert !Reading(y.sched, Quiet(now, []));
    assert DispatchStep(y, Quiet(now, []), true) == Sys(y.cfg, Dispatch(y.sched, Quiet(now, [])), Spawn(y.net, p));
  }

  /** A dispatch that fails because nobody is there. */
  function Refused(now: nat): Label { Supervisor(Quiet(now, []).(dispatchError := Some("Broken pipe")), false) }

  lemma DispatchFails(y: Sys, now: nat)
    requires y.sched.maxWorkers > 0 && Dispatching(y.sched)
    ensures Next(y, Refused(now)).sched.next == y.sched.next + 1 && OnTime(y, now, Refused(now))
  {
    StepIsDispatch(y.sched, Refused(now).answer);
    DispatchShape(y.sched, Refused(now).answer);
  }

  /** At the top with tests left, the scheduler goes on to wait for capacity. */
  lemma TopWaits(y: Sys, now: nat)
    requires y.sched.maxWorkers > 0 && y.sched.pc.Top? && y.sched.next < |y.sched.tests|
    ensures Next(y, Look(now, [])) == y.(sched := y.sched.(pc := Waiting))
    ensures OnTime(y, now, Look(now, []))
  {}

  /** The system after a successful dispatch at `t`. */
  function Dispatched(y: Sys, t: nat): Sys
    requires y.sched.maxWorkers > 0 && y.sched.next < |y.sched.tests|
  {
    Sys(y.cfg, Dispatch(y.sched.(pc := Waiting), Quiet(t, [])), Spawn(y.net, PayloadAt(y.cfg, y.sched, y.sched.next)))
  }

  /** Wait, then dispatch. */
  lemma DispatchNext(y0: Sys, t0: nat, labels: seq<Label>, y: Sys, t: nat) returns (more: seq<Label>)
    requires y0.sched.maxWorkers > 0 && y.sched.maxWorkers > 0 && Reaches(y0, t0, labels, y, t)
    requires y.sched.pc.Top? && |y.sched.active| < y.sched.maxWorkers && y.sched.next < |y.sched.tests| && y.net.up
    requires PayloadOk(PayloadAt(y.cfg, y.sched, y.sched.next))
    ensures Reaches(y0, t0, more, Dispatched(y, t), t)
  {
    var waiting := y.(sched := y.sched.(pc := Waiting));
    TopWaits(y, t);
    Extend(y0, t0, labels, y, t, Look(t, []));
    more := labels + [Look(t, [])];
    DispatchForks(waiting, t);
    Extend(y0, t0, more, waiting, t, Look(t, []));
    more := more + [Look(t, [])];
  }

  lemma ZygoteExtends(y0: Sys, t0: nat, labels: seq<Label>, y: Sys, t: nat, step: NetLabel)
    requires y0.sched.maxWorkers > 0 && y.sched.maxWorkers > 0 && Reaches(y0, t0, labels, y, t)
    ensures Reaches(y0, t0, labels + [Zygote(step)], y.(net := NetStep(y.net, step)), t)
  {
    Extend(y0, t0, labels, y, t, Zygote(step));
  }
}
