/** How often, and in which order, one test can be reported finished. */
module Fate {
  import opened Wire
  import opened SchedulerMachine
  import opened SchedulerLaws

  /** Two verdicts on one test: first a crash or a failed dispatch, then its late result. */
  ghost predicate Ordered(vs: seq<Verdict>) {
    forall i, j :: 0 <= i < j < |vs| && vs[i].id == vs[j].id ==> vs[j].Late? && !IsResult(vs[i])
  }

  /** The verdict a late result comes after. */
  ghost predicate Excused(vs: seq<Verdict>, j: nat)
    requires j < |vs|
  {
    exists i :: 0 <= i < j && vs[i].id == vs[j].id && (vs[i].Crashed? || vs[i].DispatchFailed?)
  }

  ghost predicate HasVerdict(vs: seq<Verdict>, id: nat) {
    exists i :: 0 <= i < |vs| && vs[i].id == id
  }

  /** The law on the verdicts, the live ids and the number of dispatch attempts. */
  ghost predicate FateOf(vs: seq<Verdict>, live: set<u32>, next: nat) {
    && Ordered(vs)
    && (forall j :: 0 <= j < |vs| && vs[j].Late? ==> Excused(vs, j))
    && (forall j :: 0 <= j < |vs| ==> vs[j].id < next && vs[j].id !in live)
    && (forall id: u32 :: id < next ==> id in live || HasVerdict(vs, id))
    && (forall j :: 0 <= j < |vs| && IsResult(vs[j]) ==> vs[j].result.testId == vs[j].id)
  }

  ghost predicate FateLaw(s: Sched) { FateOf(s.verdicts, s.active.Keys, s.next) }

  /** A result that was sent once, by a worker that was forked. */
  ghost predicate Expected(s: Sched, r: TestResult) {
    && r.testId < s.next
    && forall i :: 0 <= i < |s.verdicts| && s.verdicts[i].id == r.testId ==> !IsResult(s.verdicts[i])
  }

  lemma HasVerdictGrows(vs: seq<Verdict>, v: Verdict)
    ensures forall id :: HasVerdict(vs, id) ==> HasVerdict(vs + [v], id)
    ensures HasVerdict(vs + [v], v.id)
  {
    assert (vs + [v])[|vs|] == v;
    forall id | HasVerdict(vs, id)
      ensures HasVerdict(vs + [v], id)
    {
      var i :| 0 <= i < |vs| && vs[i].id == id;
      assert (vs + [v])[i].id == id;
    }
  }

  lemma ExcusedGrows(vs: seq<Verdict>, v: Verdict)
    ensures forall j :: 0 <= j < |vs| && Excused(vs, j) ==> Excused(vs + [v], j)
  {
    forall j | 0 <= j < |vs| && Excused(vs, j)
      ensures Excused(vs + [v], j)
    {
      var i :| 0 <= i < j && vs[i].id == vs[j].id && (vs[i].Crashed? || vs[i].DispatchFailed?);
      assert (vs + [v])[i].id == (vs + [v])[j].id;
    }
  }

  /** A first verdict on a test that leaves the active set. */
  lemma FirstVerdict(vs: seq<Verdict>, live: set<u32>, next: nat, v: Verdict)
    requires FateOf(vs, live, next) && v.id in live && v.id < next && !v.Late?
    requires v.Matched? ==> v.result.testId == v.id
    ensures FateOf(vs + [v], live - {v.id}, next)
  {
    HasVerdictGrows(vs, v);
    ExcusedGrows(vs, v);
  }

  lemma LateVerdict(vs: seq<Verdict>, live: set<u32>, next: nat, v: Verdict)
    requires FateOf(vs, live, next) && v.Late? && v.id < next && v.id !in live && v.result.testId == v.id
    requires forall i :: 0 <= i < |vs| && vs[i].id == v.id ==> !IsResult(vs[i])
    ensures FateOf(vs + [v], live, next)
  {
    HasVerdictGrows(vs, v);
    ExcusedGrows(vs, v);
    var i :| 0 <= i < |vs| && vs[i].id == v.id;
    assert (vs + [v])[i].id == (vs + [v])[|vs|].id;
  }

  lemma RecordFate(s: Sched, r: TestResult)
    requires Laws(s) && FateLaw(s) && Expected(s, r)
    ensures FateLaw(Record(s, r))
  {
    if r.testId in s.active {
      FirstVerdict(s.verdicts, s.active.Keys, s.next, Matched(r.testId, r));
    } else {
      LateVerdict(s.verdicts, s.active.Keys, s.next, Late(r.testId, r));
    }
  }

  lemma {:induction false} DeclareFate(s: Sched, ids: seq<u32>)
    requires Laws(s) && !s.pc.Done? && FateLaw(s)
    ensures FateLaw(Declare(s, ids))
    decreases |ids|
  {
    if ids != [] && ids[0] in s.active {
      var s1 := s.(active := s.active - {ids[0]});
      var s2 := Report(s1, CrashEvent(s.active[ids[0]].testName), Crashed(ids[0]));
      FirstVerdict(s.verdicts, s.active.Keys, s.next, Crashed(ids[0]));
      CrashKeeps(s, ids[0]);
      DeclareFate(s2, ids[1..]);
    }
  }

  lemma ForkedFate(vs: seq<Verdict>, live: set<u32>, next: nat, id: u32)
    requires FateOf(vs, live, next) && id == next
    ensures FateOf(vs, live + {id}, next + 1)
  {}

  lemma NotForkedFate(vs: seq<Verdict>, live: set<u32>, next: nat, v: Verdict)
    requires FateOf(vs, live, next) && v.DispatchFailed? && v.id == next && v.id !in live
    ensures FateOf(vs + [v], live, next + 1)
  {
    HasVerdictGrows(vs, v);
    ExcusedGrows(vs, v);
  }

  lemma DispatchFate(s: Sched, a: Answer)
    requires Bounds(s) && s.maxWorkers > 0 && FateLaw(s) && s.pc.Waiting?
    ensures FateLaw(Dispatch(s, a))
  {
    var id := TestId(s.next);
    assert id == s.next;
    DispatchShape(s, a);
    if a.dispatchError.None? {
      ForkedFate(s.verdicts, s.active.Keys, s.next, id);
    } else {
      NotForkedFate(s.verdicts, s.active.Keys, s.next, DispatchFailed(id, a.dispatchError.value));
    }
  }

  lemma DispatchShape(s: Sched, a: Answer)
    requires s.next < |s.tests| && s.maxWorkers > 0
    ensures var s', id := Dispatch(s, a), TestId(s.next);
            && s'.next == s.next + 1
            && s'.active.Keys == s.active.Keys + (if a.dispatchError.None? then {id} else {})
            && s'.verdicts == s.verdicts + if a.dispatchError.None? then [] else [DispatchFailed(id, a.dispatchError.value)]
  {}

  lemma StepFate(s: Sched, a: Answer, got: Option<TestResult>, stale: seq<u32>)
    requires Laws(s) && FateLaw(s)
    requires got.Some? ==> Expected(s, got.value)
    ensures FateLaw(StepOn(s, a, got, stale))
  {
    match s.pc
    case Top =>
    case Waiting =>
      if |s.active| >= s.maxWorkers {
        if got.Some? {
          RecordFate(s, got.value);
        }
      } else {
        DispatchFate(s, a);
      }
    case Draining(deadline) =>
      if s.collected < |s.tests| && a.now < deadline {
        if got.Some? {
          RecordFate(s, got.value);
        } else {
          DeclareFate(s, stale);
        }
      }
    case Done =>
  }

  // --------------------------------------------------------- what the law means

  /** The tests without a verdict are exactly the active ones and the ones never started. */
  lemma Unreported(s: Sched, id: u32)
    requires Laws(s) && FateLaw(s) && id < |s.tests|
    ensures !HasVerdict(s.verdicts, id) <==> id in s.active || id >= s.next
  {}
}
