/** Reporter events, the JUnit report built from them, and their broadcast. */
module Reporting {
  import opened Wire
  import opened Strings
  import Ansi

  datatype MachineEvent =
    | RunStart(count: nat)
    | TestStart(id: string, file: string)
    | TestFinished(id: string, status: string, durationMs: nat, message: Option<string>)
    | RunFinished(passed: nat, failed: nat, skipped: nat, durationMs: nat)
    | Error(text: string)

  // -------------------------------------------------------------------- JUnit

  datatype Failure = Failure(message: string, body: string)

  /** Times are seconds: milliseconds over a thousand. */
  datatype Case = Case(name: string, classname: string, time: real, failure: Option<Failure>)

  datatype Suite = Suite(
    name: string, tests: nat, failures: nat, errors: nat, skipped: nat, time: real, cases: seq<Case>)

  datatype Junit = Junit(cases: seq<Case>, errorMessage: Option<string>, report: Option<Suite>)

  /** Drop every occurrence of `pat`, scanning from the left. */
  function Remove(s: string, pat: string): string
    requires pat != ""
    decreases |s|
  {
    match FindFrom(s, pat, 0)
    case None => s
    case Some(i) => s[..i] + Remove(s[i + |pat|..], pat)
  }

  /** `path/to/file.py::test` gives a class name and a test name. */
  function ClassName(id: string): string {
    var cut := FindFrom(id, "::", 0);
    Remove(ReplaceChar(if cut.Some? then id[..cut.value] else id, '/', '.'), ".py")
  }

  function TestName(id: string): string {
    var cut := FindFrom(id, "::", 0);
    if cut.Some? then id[cut.value + 2..] else id
  }

  function CaseOf(id: string, status: string, durationMs: nat, message: Option<string>): Case {
    var failure := if status != "pass"
                   then Some(Failure("Test failed", Ansi.Strip(if message.Some? then message.value else "Test failed")))
                   else None;
    Case(TestName(id), ClassName(id), durationMs as real / 1000.0, failure)
  }

  function JunitStep(j: Junit, e: MachineEvent): Junit {
    match e
    case RunStart(_) => j.(cases := [], errorMessage := None)
    case TestStart(_, _) => j
    case TestFinished(id, status, ms, message) => j.(cases := j.cases + [CaseOf(id, status, ms, message)])
    case RunFinished(passed, failed, skipped, ms) =>
      j.(cases := [], report := Some(Suite("tach", passed + failed + skipped, failed, 0, skipped, ms as real / 1000.0, j.cases)))
    case Error(text) => j.(errorMessage := Some(text))
  }

  const FRESH: Junit := Junit([], None, None)

  function JunitAfter(events: seq<MachineEvent>): Junit {
    if events == [] then FRESH
    else JunitStep(JunitAfter(events[..|events| - 1]), events[|events| - 1])
  }

  lemma JunitSnoc(events: seq<MachineEvent>, e: MachineEvent)
    ensures JunitAfter(events + [e]) == JunitStep(JunitAfter(events), e)
  {}

  /** How many cases carry a failure. */
  function Failing(cases: seq<Case>): nat {
    if cases == [] then 0
    else Failing(cases[..|cases| - 1]) + if cases[|cases| - 1].failure.Some? then 1 else 0
  }

  class JunitReporter {
    var cases: seq<Case>
    var errorMessage: Option<string>
    var report: Option<Suite>

    ghost function View(): Junit
      reads this
    {
      Junit(cases, errorMessage, report)
    }

    constructor ()
      ensures View() == FRESH
    {
      cases, errorMessage, report := [], None, None;
    }

    /** The five callbacks, one per event. */
    method Handle(e: MachineEvent)
      modifies this
      ensures View() == JunitStep(old(View()), e)
    {
      match e
      case RunStart(_) =>
        cases := [];
        errorMessage := None;
      case TestStart(_, _) =>
      case TestFinished(id, status, ms, message) =>
        var failure := None;
        if status != "pass" {
          var clean := Ansi.StripAnsiCodes(if message.Some? then message.value else "Test failed");
          failure := Some(Failure("Test failed", clean));
        }
        cases := cases + [Case(TestName(id), ClassName(id), ms as real / 1000.0, failure)];
      case RunFinished(passed, failed, skipped, ms) =>
        report := Some(Suite("tach", passed + failed + skipped, failed, 0, skipped, ms as real / 1000.0, cases));
        cases := [];
      case Error(text) =>
        errorMessage := Some(text);
    }
  }

  // ----------------------------------------------------------------- broadcast

  /** The JSON and the human reporter: both only print. */
  class ConsoleReporter {
    var printed: seq<MachineEvent>

    constructor ()
      ensures printed == []
    {
      printed := [];
    }

    method Handle(e: MachineEvent)
      modifies this
      ensures printed == old(printed) + [e]
    {
      printed := printed + [e];
    }
  }

  datatype Child = Console(console: ConsoleReporter) | JunitXml(junit: JunitReporter)
  {
    ghost function Object(): object {
      match this
      case Console(c) => c
      case JunitXml(j) => j
    }

    /** The child has seen exactly these events since it was created. */
    ghost predicate Saw(events: seq<MachineEvent>)
      reads Object()
    {
      match this
      case Console(c) => c.printed == events
      case JunitXml(j) => j.View() == JunitAfter(events)
    }
  }

  class MultiReporter {
    const reporters: seq<Child>
    ghost var seen: seq<MachineEvent>

    ghost function Owned(): set<object> { set c <- reporters :: c.Object() }

    /** Each child is owned once and has seen everything broadcast so far. */
    ghost predicate Valid()
      reads this, Owned()
    {
      && (forall i, j :: 0 <= i < j < |reporters| ==> reporters[i].Object() != reporters[j].Object())
      && (forall c <- reporters :: c.Object() != this)
      && (forall c <- reporters :: c.Saw(seen))
    }

    constructor (reporters: seq<Child>)
      requires forall i, j :: 0 <= i < j < |reporters| ==> reporters[i].Object() != reporters[j].Object()
      requires forall c <- reporters :: c.Saw([])
      ensures this.reporters == reporters && seen == [] && Valid()
    {
      this.reporters := reporters;
      seen := [];
    }

    method Broadcast(e: MachineEvent)
      requires Valid()
      modifies this, Owned()
      ensures Valid() && seen == old(seen) + [e]
    {
      for i := 0 to |reporters|
        invariant seen == old(seen)
        invariant forall c <- reporters :: c.Object() != this
        invariant forall k :: 0 <= k < i ==> reporters[k].Saw(seen + [e])
        invariant forall k :: i <= k < |reporters| ==> reporters[k].Saw(seen)
      {
        assert reporters[i] in reporters && reporters[i].Object() in Owned();
        match reporters[i] {
          case Console(c) => c.Handle(e);
          case JunitXml(j) => j.Handle(e);
        }
      }
      seen := seen + [e];
    }
  }
}
