# Tach in Dafny

A Dafny 4.11 model of Tach, a Python test runner: a Supervisor that schedules
tests, a Zygote that forks one worker per test, a snapshot engine that resets
worker memory lazily, a static fixture resolver, a bytecode cache, the JUnit
reporter and the watch loop. `dafny verify dfyconfig.toml` checks everything.

How the modules fit together:

- **Run protocol.** `Wire` holds the byte formats (bincode 1.3, fixed-width
  little-endian, UTF-8 text, 32-bit length frames). `SchedulerMachine` is the
  scheduler as a machine that consumes one `Answer` of its environment per
  question; `Scheduler` is the same scheduler as nested loops over mutable
  fields, proved to follow the machine. `RunProtocol` adds the Zygote, the
  forked workers, their collector threads, the channel, the forwarder and the
  bytes on the result socket; a run is any sequence of labels, and a label that
  is not enabled changes nothing. `SchedulerLaws`, `JunitTrace`, `Fate`,
  `NetInvariant`, `RunInvariant` and `RunTheorems` say what every run keeps,
  whatever its clocks show, and `WorkerResults` where reported results come from; `Timing` adds what holds when time does not run
  backwards and a read of the result socket waits its five seconds
  (`src/scheduler.rs:42-43`). `LateRun`, `CapacityWait` and `CapacityProgress`
  say where a run fails its callers, with `RunSteps` for building concrete timely
  runs. The scheduler's
  history is a list of `Verdict`s, one per finish event: a matched result, a
  late result (its id was no longer active), a crash verdict, a failed dispatch.
- **Snapshot engine.** `MapsParser` reads `/proc/<pid>/maps`, `Snapshot`
  captures golden pages, `LazyReset` compares dropping and refilling pages with
  copying the image back at once, `WorkerReset` has the worker's self-reset and
  the Supervisor's fault loop, `ResetDriver` puts them together, and `ResetKinds`
  tells from the text of the maps what is reset.
- **Fixtures.** `Discovery` finds the injected arguments of a test,
  `ParametrizeText` pins them to decorators as they are written, `Registry` is
  the tiered lookup, `Resolver` and `ResolverOrder` the depth-first search,
  `ResolutionSpec` what it promises in terms of lookups alone.
- **Loader.** `ModuleNames`, `BytecodeCache` and `Loader`.
- **Reports and watching.** `Ansi`, `Reporting`, `JunitCase`, `Watch`; `Strings` has the
  borrowed string operations, `Outcomes` the result type of engine and loader.

Assumptions that show up in the statements: at least one worker slot
(`src/main.rs:319`), at most 2^32 tests and payloads and results shorter than
2^32 bytes (the casts to 32 bits are written out), no read of the result socket
that times out in the middle of a frame while the Zygote lives
(`NetInvariant.ConsumeKeepsIff` shows that this is exactly what is needed), and
page-aligned mappings. A dispatch that fails may or may not have forked. Clocks,
the order in which hash maps are iterated, shutdown requests and everything the
sockets deliver are inputs.

Where code and documentation disagree, the code is followed, and a lemma says
what it does:

- skipped tests (status 2) are reported as failed, since only status 0 counts as
  a pass (`src/scheduler.rs:181-185`): `RunTheorems.SkippedCountAsFailed`;
- `@patch.object` is not recognised as a patch, although a comment says so
  (`src/discovery.rs:533-534`): `Discovery.IsPatchIff`,
  `ResolverOrder.PatchObjectMissing`;
- a user fixture named like a pytest builtin, such as `cache`, is never listed,
  although `rust_tests/resolver_integration.rs:230-261` expects it:
  `ResolutionSpec.BuiltinHidesOwn`.

Seven more findings, each with a witness and its exact condition:

- after a shutdown request a worker that was declared crashed can still answer
  and is counted again, so that passed + failed can reach the number of tests
  although one of them never started: `LateRun.LateAnswerRun`. On time this takes
  a shutdown request, or a failed dispatch that had forked; without either, a run
  that returns before the deadline has reported every test exactly once:
  `Timing.LateNeedsShutdown`, `Timing.EveryTestOnce`;
- the capacity loop hangs when the active workers have crashed:
  `CapacityWait.CrashesHang`, `CapacityProgress.CapacityIff`,
  `CapacityProgress.DeadCapacityIff`;
- a directory or file below the first level whose name starts with `py` spoils the
  class name of its JUnit cases: `JunitCase.ClassNameSpoiled`,
  `JunitCase.CaseNames`;
- an edit that is not strictly newer than the cache file is missed:
  `BytecodeCache.SameTimeEditMissed`, `BytecodeCache.EditSeenIff`;
- after a change of interpreter old bytecode is served if the new magic number
  could not be found out: `BytecodeCache.UpgradeMissed`,
  `BytecodeCache.UpgradeSeenIff`;
- files whose paths differ only in `/` against `_` share a cache file:
  `BytecodeCache.CollisionServesOther`, `BytecodeCache.OwnBytecodeIff`;
- a removed source is still served from the cache:
  `BytecodeCache.RemovedSourceServed`, `BytecodeCache.MissingSourceFailsIff`,
  `BytecodeCache.RemovedSourceFailsIff`.

## Model

| member | source | states |
|---|---|---|
| RunTheorems.FinishEventsPerTest | src/scheduler.rs:76-136 | in every run of the whole system a late result comes only after a crash verdict or failed dispatch of the same test, and no test gets three finish events |
| RunTheorems.Conservation | src/scheduler.rs:55-150 | at every step passed + failed = collected = number of finish events, active workers stay under the cap, collected + active = dispatch attempts + late results, and the finish events are the verdicts in order under the right names |
| RunTheorems.CompleteRun | src/scheduler.rs:110-150 | a return before the deadline without shutdown leaves unreported exactly the active workers, at most as many as late results; without late results every test is reported exactly once and passed + failed = total |
| RunTheorems.SecondReportIff | src/scheduler.rs:167-175 | in every run, reading the oldest unread result gives its test a second finish event if and only if its id is not active, and then under a made-up name |
| Timing.LateNeedsShutdown | src/scheduler.rs:42-43 | in every timely run a result is late only if a shutdown was requested, or the dispatch of the very same test failed although it had forked |
| Timing.EveryTestOnce | src/scheduler.rs:110-150 | a timely run that returns before the deadline without either has reported every test exactly once, with passed + failed = total and no worker left active |
| Timing.RunOnTime | src/scheduler.rs:110-136 | in every timely run without shutdown, once a worker was declared crashed everything is counted, or the Zygote is gone and no frame is left |
| Timing.SweepOnTime | src/scheduler.rs:122-134 | a sweep after a timed-out read of a living Zygote's socket leaves no worker active and no test uncounted |
| Timing.DrainsTenSeconds | src/scheduler.rs:112-113 | in every run outstanding results are waited for until ten seconds after dispatching ended |
| LateRun.LateAnswerRun | src/scheduler.rs:76-142 | for any two tests, any number of slots and any answer there is a timely run with a shutdown request whose verdicts are a crash and then a late result of the first test, and which returns with passed + failed = total although the second test never started |
| CapacityProgress.CapacityIff | src/scheduler.rs:85-99 | in every run that waits at the cap while the Zygote lives, some timely continuation forks a worker for the next test if and only if some active worker can still answer or has an unread answer |
| CapacityProgress.DeadCapacityIff | src/scheduler.rs:85-99 | in every run that waits at the cap after the Zygote has died, the loop can be left if and only if a complete frame left on the socket is of an active worker |
| CapacityProgress.RunAttended | src/zygote.rs:331-345 | in every run a live worker still has its collector or its result has been queued |
| CapacityProgress.ReadUntilFree | src/scheduler.rs:86-99 | once a complete frame of an active worker is on the socket, finitely many reads free a slot |
| CapacityWait.HungForever | src/scheduler.rs:86-99 | from a state of any run that waits at the cap for workers that cannot answer, every continuation stays there and dispatches nothing |
| CapacityWait.CrashesHang | src/scheduler.rs:86-99 | with more tests than slots there is a timely run that hangs this way before anything is reported |
| RunTheorems.SkippedCountAsFailed | src/scheduler.rs:138-142 | after every finished run a JUnit case carries a failure if and only if its verdict is not a result of status 0, so skipped results are failures, and the skipped total is 0 |
| RunTheorems.ResultsIntact | src/zygote.rs:430-472 | every reported result is the one its own worker produced, for the payload built for that test, reported in channel order |
| WorkerResults.QueuedRan | src/zygote.rs:445-472 | in every run each queued result was produced by a step of that test's own worker, with its id and duration, and with the status and message the harness returned, or status 5 and the text of the error it raised |
| WorkerResults.EventsTellOutcomes | src/scheduler.rs:167-197 | in every run each finish event says, under the test's name, whether its harness returned status 0, the duration in milliseconds and the message; or that the worker crashed; or why the dispatch failed |
| WorkerResults.PassMeansHarnessPassed | src/junit.rs:135-145 | after every finished run a JUnit case is without failure if and only if its result is one of a harness that returned status 0 |
| WorkerResults.WorkerPayloads | src/scheduler.rs:204-220 | in every run each worker has the file, name, async flag, debug socket and fixtures of its own test, in order with the word for their scope, and the log descriptor of slot id mod max workers |
| RunTheorems.SocketParses | src/zygote.rs:284-345 | for any interleaving of collectors, crashes and partial writes the unread socket bytes parse into the oldest unread results, into all of them when the forwarder is idle |
| RunTheorems.StreamUnique | src/protocol.rs:132-139 | two frame streams with the same bytes carry the same results |
| RunTheorems.PrefixParses | src/scheduler.rs:159-167 | a cut-off stream of complete frames parses to a prefix of the results, an uncut one to all of them |
| RunTheorems.JunitAgrees | src/junit.rs:156-165 | after every finished run the JUnit suite has one case per verdict, in order, and its tests and failures equal its recorded and failing cases |
| RunTheorems.SchedulerFollowsMachine | src/scheduler.rs:55-150 | the scheduler inside the whole system only ever takes steps of the scheduler machine |
| RunInvariant.TraceInv | src/zygote.rs:296-424 | the invariant tying scheduler, workers, channel and socket bytes together holds in every reachable state |
| RunInvariant.NextKeeps | src/zygote.rs:296-424 | each single step of Supervisor, worker, collector, forwarder, or the death of the Zygote keeps that invariant |
| RunInvariant.NextExpected | src/scheduler.rs:167-175 | the oldest unread result belongs to a forked worker and has not been reported before |
| NetInvariant.NetStepKeeps | src/zygote.rs:284-345 | whatever workers, collectors and forwarder do, only complete frames are queued, each result once, and socket bytes plus queued bytes are the unread frames |
| NetInvariant.ReadsOldest | src/scheduler.rs:159-167 | a complete frame on the socket is the oldest unread one |
| NetInvariant.ConsumeKeepsIff | src/scheduler.rs:159-199 | reads keep the byte stream in step if and only if none gives up in the middle of a frame |
| NetInvariant.CollectorReads | src/zygote.rs:331-345 | what a collector forwards is exactly its worker's complete frame |
| NetInvariant.RequestArrives | src/scheduler.rs:222-227 | the fork command's bytes give the Zygote back the dispatched payload |
| Fate.StepFate | src/scheduler.rs:76-136 | each scheduler step keeps the order of verdicts per test, if every result read was sent once by a forked worker |
| Fate.Unreported | src/scheduler.rs:231-238 | the tests without a verdict are exactly the active ones and those never started |
| RunTheorems.LateCountsAgain | src/scheduler.rs:171-174 | in every run a late result is the second and last finish event of its test, after a crash or failed dispatch under its own name, and carries a made-up name |
| SchedulerLaws.RunKeepsLaws | src/scheduler.rs:55-150 | counters, names, cap, balance and JUnit buffer are right in every state for any environment, also an adversarial one |
| SchedulerLaws.CompleteReturn | src/scheduler.rs:110-150 | with everything collected and no shutdown at most as many workers are unaccounted for as there were late results |
| SchedulerLaws.FinishKeeps | src/scheduler.rs:138-142 | the final event writes a JUnit report whose totals agree with its cases |
| JunitTrace.RunReflected | src/junit.rs:111-165 | in every state of every run the buffered cases, at the end the written ones, are those of the finish events, in order |
| SchedulerMachine.StaleIds | src/scheduler.rs:303-310 | exactly the workers silent for more than three seconds, each once, in iteration order |
| Scheduler.Scheduler.Run | src/scheduler.rs:55-150 | the loops follow the machine on the consumed answers; the final event carries the returned counts and duration; every JUnit child of the broadcast ends with totals that agree with its cases and with the returned counts |
| Scheduler.Scheduler.AwaitCapacity | src/scheduler.rs:85-99 | the capacity loop leaves fewer than max workers active, or the script of answers is used up |
| Scheduler.Scheduler.DispatchTest | src/scheduler.rs:101-109 | a dispatch starts the next test and either activates its worker or reports the failure |
| Scheduler.Scheduler.TryCollect | src/scheduler.rs:154-201 | a decodable frame yields name, status, duration and message, and frees its worker; anything else changes nothing |
| Scheduler.Scheduler.GetStaleWorkers | src/scheduler.rs:303-310 | returns the stale workers of the machine |
| Scheduler.Scheduler.DeclareCrashed | src/scheduler.rs:124-133 | each stale worker is reported as crashed, counted as failed and removed |
| Wire.ResultRoundTrip | src/protocol.rs:56-63 | decoding an encoded result gives the result back |
| Wire.PayloadRoundTrip | src/protocol.rs:20-33 | decoding an encoded payload gives the payload back |
| Wire.PayloadOrder | src/protocol.rs:20-33 | the order of a payload's fields: id, file, name, flag, fixtures, descriptor, debug socket |
| Wire.EncodeWithLength | src/protocol.rs:132-139 | reading the length-prefixed buffer gives back the body and the result |
| Wire.PartialFrameUnreadable | src/zygote.rs:335-344 | a proper prefix of a frame is never read as a frame |
| Wire.Utf8RoundTrip | src/protocol.rs:56-63 | message text survives its UTF-8 encoding |
| Wire.ResultLayout | src/protocol.rs:56-63 | where each field of an encoded result lies: id, status, nanoseconds, length of the text, text |
| Wire.LeByteAt | src/protocol.rs:135-136 | integers are little-endian: the byte at i is worth 256 to the i |
| Wire.Utf8Ascii | src/protocol.rs:56-63 | ASCII text is its own encoding |
| LazyReset.LazyRefinesEager | src/zygote.rs:124-149 | over any run of stores, faults and resets every mapped address reads as if resets copied the image back at once |
| LazyReset.ResetRestoresIff | src/snapshot.rs:451-481 | right after a reset a dropped address reads its frozen value if and only if its page was captured or the value was zero |
| LazyReset.FaultInvisible | src/snapshot.rs:443-484 | handling a fault changes the value of no address |
| LazyReset.StepRefines | src/snapshot.rs:443-484 | each store, fault or reset keeps lazy and eager memory in agreement |
| ResetDriver.Drive | rust_tests/physics_check.rs:239-336 | a fresh worker that enters snapshot mode and is captured from the same maps: after any number of tests, each followed by a self-reset and any faults, reset addresses hold the frozen image and all others what the tests wrote; exactly when each step of the set-up succeeds |
| ResetDriver.RunCycle | src/zygote.rs:124-149 | one test, reset and fault round leaves the image in the reset regions and the test's writes elsewhere |
| WorkerReset.SelfResetRestores | src/zygote.rs:87-149 | after any history a self-reset puts every snapshotted non-stack address back to its value at the freeze point and leaves all others, the stack included, alone |
| ResetKinds.HeapBackStackKept | src/zygote.rs:87-149 | after any history a self-reset gives every address of the heap, of unnamed private memory and of the Python library its frozen byte, and leaves every address of the stack, of foreign and of read-only mappings with what was last stored there; told from the text of the maps |
| ResetKinds.RangesOfText | src/snapshot.rs:122-160 | from the text of the maps: heap, unnamed private memory and Python library data are captured and reset, the stack is captured and not reset, the rest is neither |
| ResetKinds.OthersAreKept | src/zygote.rs:87-93 | no address of the stack, or of a mapping that is not captured, is ever in a reset range |
| ResetKinds.SessionIsolated | rust_tests/physics_check.rs:239-336 | after a session of tests heap addresses hold the frozen image and stack addresses what the tests wrote |
| WorkerReset.SameMapsCovered | src/snapshot.rs:471-481 | if worker and Supervisor saw the same maps, every dropped page is golden, so the zero-fill branch is never taken for it |
| WorkerReset.FaultsInvisible | src/snapshot.rs:490-558 | serving pending faults, in any order and even with failing copies, changes nothing the worker can observe |
| WorkerReset.HandlePendingFaults | src/snapshot.rs:490-558 | serves faults from golden pages or zeros until the descriptor runs dry or a copy fails, and counts them |
| WorkerReset.FaultsAllServed | src/snapshot.rs:498-556 | if every pending fault is on a missing page, and on a different one, all are served and counted: exactly those pages are filled |
| WorkerReset.WorkerProcess.ResetMemory | src/zygote.rs:124-149 | drops exactly the cached ranges whose call succeeds, and nothing before the snapshot |
| WorkerReset.WorkerProcess.InitSnapshotMode | src/zygote.rs:40-116 | a later reset of a fresh worker drops exactly the snapshotted non-stack addresses if every step of the hand-over and the stop succeed and the maps could be read, and nothing on every other path; only a failed stop is an error |
| WorkerReset.ResetRanges | src/zygote.rs:87-93 | a range is cached if and only if it is a snapshotted non-stack region |
| Snapshot.CaptureRegionPages | src/snapshot.rs:323-370 | succeeds exactly if the whole region is readable, with one entry per page holding the captured bytes |
| Snapshot.SnapshotManager.RegisterWorker | src/snapshot.rs:277-319 | on success the golden map has exactly the pages of the snapshotted regions with their captured bytes; a failure stores nothing |
| Snapshot.MergeRegion | src/snapshot.rs:296-300 | merging a region's pages keeps the golden map exact, overlapping regions included |
| Snapshot.GoldenByte | src/snapshot.rs:210-212 | every address of a snapshotted region is found at its offset in its golden page |
| MapsParser.ParseInvertsRender | src/snapshot.rs:163-207 | parsing the kernel's rendering of any list of mappings returns those regions, with len = end - start |
| MapsParser.ParseMemoryMaps | src/snapshot.rs:172-207 | the parsing loop skips malformed lines and keeps the order of the others |
| Resolver.SucceedsIff | src/resolver.rs:184-283 | resolution succeeds if and only if everything reachable is builtin or defined and the reachable graph is acyclic |
| Resolver.SuccessList | src/resolver.rs:223-283 | the list is exactly the reachable non-builtin names, once each, every one after its non-builtin dependencies |
| ResolutionSpec.ResolvesIff | src/resolver.rs:184-283 | a test resolves if and only if no chain of looked-up dependencies from a non-injected argument repeats a name or meets an undefined non-builtin one |
| ResolutionSpec.ResolvedList | src/resolver.rs:264-283 | every non-injected argument and every looked-up dependency of a listed fixture is builtin or listed earlier, every listed name is an argument or needed by a later one, and each entry has the source and scope of its lookup |
| ResolutionSpec.ErrorsAreChains | src/resolver.rs:237-262 | an error is a chain of looked-up dependencies from an argument, to an undefined name or back to a name on it |
| ResolutionSpec.BuiltinHidesOwn | src/resolver.rs:249-252 | a user fixture named like one of pytest's, such as `cache`, is never listed |
| Resolver.ErrorsGenuine | src/resolver.rs:237-262 | a missing-fixture error names a reachable undefined name; a cycle error is a path from a direct dependency that repeats at its last name only |
| Resolver.DepthBounded | src/resolver.rs:264-273 | on every graph, cyclic ones included, no search ever has more names open than there are visible fixtures, and a reported cycle has at most one name more |
| Resolver.Resolution.ResolveFixture | src/resolver.rs:223-283 | the search on mutable lists computes Visit, with the greatest stack it says; it terminates on cyclic registries too |
| Resolver.ResolveTest | src/resolver.rs:184-220 | injected arguments are skipped and the others resolved in order; the stack never holds more names than the test sees fixtures |
| ResolverOrder.ResolveTestCorrect | src/resolver.rs:184-220 | a test resolves exactly if its graph is defined and acyclic, to the deduplicated naive expansion |
| ResolverOrder.PostorderDeduplicated | src/resolver.rs:198-280 | the memoised search lists the naive postorder expansion with later mentions dropped |
| ResolverOrder.ExpandUnfolds | src/resolver.rs:264-280 | on acyclic graphs the naive expansion is the plain recursion |
| ResolverOrder.PatchObjectMissing | src/discovery.rs:528-540 | with `@patch.object` anywhere among the decorators, the argument after the counted mocks is still taken for a fixture, and reported missing if and only if no fixture has its name |
| Discovery.PatchObjectIgnored | src/discovery.rs:528-582 | adding `@patch.object` changes neither the number of injecting patches nor the parametrize names |
| Discovery.IsPatchIff | src/discovery.rs:528-540 | once calls are unwrapped, a decorator is a patch if and only if its last identifier is `patch` |
| ResolverOrder.ResolveAll | src/resolver.rs:164-181 | every test ends up in exactly one of the two lists, in discovery order |
| Registry.FromDiscovery | src/resolver.rs:82-150 | with distinct module paths, lookup in the nested maps is the last matching definition in the class tier, else the module tier, else among conftest fixtures |
| Registry.ClassShadows | src/resolver.rs:125-137 | for a method of a test class the fixtures of that class shadow those of the module, and these the shared ones |
| Registry.NoClassNoShadow | src/resolver.rs:125-150 | a test outside a test class sees the fixtures of no class |
| Registry.ConftestNames | src/resolver.rs:89-92 | shared fixtures are those of files named conftest.py, in any directory |
| Discovery.StartNames | src/resolver.rs:193-212 | resolution starts from the arguments in order, minus parametrize names, minus the first k when k patches inject and there are that many |
| Discovery.ExtractInjectedArgs | src/discovery.rs:589-607 | injected names are the parametrize names and the leading arguments filled by patches |
| Discovery.ExtractParametrizedArgs | src/discovery.rs:473-525 | collects the names of all parametrize decorators in order, from any of the three notations |
| ParametrizeText.StringFormInverts | src/discovery.rs:486-497 | a parametrize string of names, comma-separated with any blanks around them, provides exactly the names in order, empty ones left out |
| ParametrizeText.ListFormInverts | src/discovery.rs:498-517 | a list or tuple provides exactly its strings, as they are |
| ParametrizeText.IsParametrizeIff | src/discovery.rs:454-468 | once calls are unwrapped, a parametrize decorator is recognised by its last attribute |
| ParametrizeText.OthersProvideNothing | src/discovery.rs:476-484 | any other decorator, and one that is not called, provides no names |
| ParametrizeText.PatchForms | src/discovery.rs:548-574 | a patch passes a mock whatever its options, unless a replacement is given, as second argument or as `new` |
| BytecodeCache.CacheAgreesWithCompiler | src/loader.rs:298-325 | in every run of edits, removals, interpreter changes and compiles, compiling an existing source gives a fresh compile of its contents, if names do not collide, edits are strictly newer, and the magic number is known or the file was last compiled with it |
| BytecodeCache.UpgradeSeenIff | src/loader.rs:282-292 | after a change of interpreter a file gets bytecode of the new one, whatever the compiler, if and only if the new magic number is known or the same, or the source is newer |
| BytecodeCache.RunKeepsSound | src/loader.rs:328-354 | every cache file stays the compilation of its origin, current unless the source is newer |
| BytecodeCache.EditSeenIff | src/loader.rs:278-278 | an edit is seen, whatever the compiler, if and only if it is strictly newer or changes nothing |
| BytecodeCache.OwnBytecodeIff | src/loader.rs:251-260 | two files get their own bytecode, whatever they contain, if and only if their cache names differ |
| BytecodeCache.CacheNameCollides | src/loader.rs:251-260 | two paths share a cache name if and only if they differ only in slashes against underscores |
| BytecodeCache.MissingSourceFailsIff | src/loader.rs:298-325 | on any disk, compiling a missing source fails if and only if its cache file is missing, shorter than a header, or known to be of another interpreter |
| BytecodeCache.RemovedSourceFailsIff | src/loader.rs:298-325 | after any run that ends by removing a source, compiling it fails if and only if nothing was compiled into its cache file, or last by an interpreter known to be another one |
| BytecodeCache.RunWrites | src/loader.rs:328-354 | in every run a cache file exists if and only if it was written, and carries its last writer's magic number |
| BytecodeCache.RemovedSourceServed | src/loader.rs:263-279 | a removed source is served from the cache although a fresh compile would fail |
| BytecodeCache.Pyc | src/loader.rs:24-26 | a bytecode file starts with the magic number and its code begins after sixteen header bytes |
| BytecodeCache.HeaderFields | src/loader.rs:24-26 | after the magic number come no flags, the source's time in seconds and its size in bytes |
| Loader.BytecodeCompiler.CompileFile | src/loader.rs:298-325 | recompiles exactly if the cache file is missing, stale, unreadable or known to be of another interpreter, and returns the stripped file |
| Loader.BytecodeCompiler.CompileBatch | src/loader.rs:374-410 | each name holds the last successfully compiled file mapping to it; the count is the number of successes and bounds the growth of the registry |
| Loader.BatchIsFresh | src/loader.rs:374-410 | from a trusted cache, if cache names do not collide, each Python file of a batch gets a fresh compile of its own source and every other file nothing |
| Loader.BatchHolds | src/loader.rs:374-410 | after a batch into an empty registry each name holds the entry of the last successful file that maps to it |
| Loader.EntryFacts | src/loader.rs:384-393 | an entry has its file's path, bytecode and dotted name, and is a package if and only if the file is an `__init__.py` |
| ModuleNames.ModuleNameInverts | src/loader.rs:234-248 | module files and package files both map back to their dotted name, under any root |
| ModuleNames.PackageFileInverts | src/loader.rs:242-245 | the init suffix of a package is removed and nothing else |
| ModuleNames.PackageFlag | src/loader.rs:385-385 | package files are told from module files |
| ModuleNames.PythonFileIff | src/loader.rs:379-381 | a file is a Python file if and only if its name ends in `.py` with something before it |
| Ansi.StripAnsiCodes | src/junit.rs:13-36 | the scanner computes Strip |
| Ansi.StripUndoesRender | src/junit.rs:13-36 | stripping text interleaved with control sequences leaves exactly the text |
| Ansi.StripCleans | src/junit.rs:30-33 | on any input the output has no escape and no NUL character |
| Ansi.StripIdempotent | src/junit.rs:13-36 | stripping twice is stripping once |
| Ansi.StripWithoutCsi | src/junit.rs:13-36 | where no control sequence begins, exactly the escape and NUL characters are removed |
| Ansi.StripUnfinished | src/junit.rs:20-28 | a control sequence that never ends takes the rest of the text with it |
| JunitCase.CaseNames | src/junit.rs:129-135 | the case of `dir/file.py::rest` is named `rest`; its class is the dotted path if and only if `.py` does not occur in that |
| JunitCase.ClassNameSpoiled | src/junit.rs:131-134 | a directory or file below the first level whose name starts with `py` spoils the class name |
| JunitCase.CaseFacts | src/junit.rs:137-153 | the time is in seconds; a pass has no failure, anything else the message without its control sequences |
| JunitCase.CaseWithoutMessage | src/junit.rs:137-140 | a failure without a message says that the test failed |
| JunitCase.CaseWithoutClass | src/junit.rs:129-135 | without a separator the whole id is the name |
| JunitCase.SuiteWritten | src/junit.rs:156-205 | the end of a run writes the suite `tach` with the buffered cases and its time in seconds, and empties the buffer |
| Reporting.JunitReporter.Handle | src/junit.rs:110-205 | each callback updates cases, error and report as JunitStep says |
| Reporting.MultiReporter.Broadcast | src/reporter.rs:173-209 | every child has seen exactly the broadcast events, in order |
| Watch.StartWatchLoop | src/watch.rs:57-99 | the log is the first session, then the events in order, with a session exactly after the last event of each maximal group without silence that has a relevant path and that something follows |
| Watch.NoLostUpdate | src/watch.rs:61-96 | back at the blocking receive every relevant event dequeued so far has been followed by a session |
| Watch.SessionPerTrigger | src/watch.rs:73-90 | besides the first there is exactly one session per burst with a relevant path |
| Watch.BurstsPartition | src/watch.rs:68-71 | every event belongs to exactly one burst, in order |
| Watch.BurstsAreGroups | src/watch.rs:64-72 | the bursts are exactly the maximal groups of events without silence between them, in order; a burst is closed if and only if something follows it |
| Watch.SameBurstIff | src/watch.rs:69-72 | two events are in one burst if and only if no silence lies between them |
| Watch.LogFromScript | src/watch.rs:57-99 | the log built from bursts is the one told from the script alone |
| Watch.IgnoredPlaces | src/watch.rs:113-126 | paths in cache, repository, environment or package directories never trigger |
| Watch.PlainFileRelevant | src/watch.rs:102-110 | a Python file with a plain name is relevant |
| Watch.TriggersIff | src/watch.rs:102-110 | a burst triggers if and only if one of its events has a relevant path |

## Left out

- The Zygote's command loop, collector threads and forwarder are steps of a state machine in `RunProtocol`, not threads; blocking and scheduling fairness are not modelled. `CapacityProgress.CapacityIff` and `DeadCapacityIff` say when the capacity loop can end, not that it does.
- A Zygote that does not answer a fork command (a payload it cannot decode, a failed fork) is a dispatch that never completes.
- Log buffers and slots: slots are recorded, but two active workers may share one and buffer contents are not modelled.
- Scheduler.Scheduler.Run: the counters are fields and the environment is a finite script, so a run may be cut off; wall-clock bounds are not stated.
- Python C-API injection, namespace patching and the pytest harness: foreign calls.
- Kernel behaviour beyond an abstract memory: `pidfd_open`, `process_madvise` in `reset_worker`, descriptor passing, and file-backed pages that are not registered (the model refills them with zeros).
- Statics of the worker that are set after the freeze, such as the snapshot flag, are not part of the resettable memory.
- XML and JSON serialisation, terminal output, the debug server, signals, mount namespaces, configuration and session plumbing.
- Parsing Python source, walking directories, and reading the scope and the parameters of a fixture from its decorator: discovery starts from decorator expressions and finished fixture records.
- Discovery.ExtractInjectedArgs: starts from decorator expressions and the argument list with `self` and `cls` already removed.
- Registry.FromDiscovery: paths are plain strings, so path normalisation is not modelled.
- ModuleNames.ModuleNameInverts: paths are plain strings; trailing slashes and `.` components, which the path type of the source ignores, are kept.
- Loader.BytecodeCompiler.CompileFile: sources are named by their path below the project root, so `a.py` and `root/a.py` are one file, as they are when the root is the working directory.
- ResetDriver.Drive: the calls that drop memory all succeed there; `WorkerReset.WorkerProcess.ResetMemory` and `LazyReset.LazyRefinesEager` cover failing ones.
- Truncation of failure messages to 4 KB and the status names and icons: not used on the run path.
