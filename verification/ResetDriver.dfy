/**
 Supervisor and worker together: hand-over, capture, then cycles of a test
 run, a self-reset and the faults that follow it.
 */
module ResetDriver {
  import opened Wire
  import opened Outcomes
  import opened Snapshot
  import opened LazyReset
  import opened WorkerReset

  datatype Write = Write(addr: nat, value: byte)

  /** One test: what it writes, and the events the Supervisor reads after its reset. */
  datatype Cycle = Cycle(writes: seq<Write>, events: seq<UffdEvent>)

  // -------------------------------------------------------------- the reference

  /** Plain memory after some writes; unmapped addresses cannot be written. */
  function Written(mem: Image, writes: seq<Write>): (r: Image)
    ensures r.Keys == mem.Keys
  {
    if writes == [] then mem
    else
      var k := |writes| - 1;
      var before := Written(mem, writes[..k]);
      if writes[k].addr in mem then before[writes[k].addr := writes[k].value] else before
  }

  /** Plain memory after all tests, without any reset. */
  function AllWritten(mem: Image, cycles: seq<Cycle>): (r: Image)
    ensures r.Keys == mem.Keys
  {
    if cycles == [] then mem
    else Written(AllWritten(mem, cycles[..|cycles| - 1]), cycles[|cycles| - 1].writes)
  }

  lemma {:induction false} WrittenAt(m1: Image, m2: Image, writes: seq<Write>, a: nat)
    requires m1.Keys == m2.Keys && a in m1 && m1[a] == m2[a]
    ensures Written(m1, writes)[a] == Written(m2, writes)[a]
  {
    if writes != [] {
      WrittenAt(m1, m2, writes[..|writes| - 1], a);
    }
  }

  /** What is resident shows the image; what is not reads as zero. */
  ghost predicate Backs(pages: Resident, image: Image) {
    && Sized(pages)
    && forall a :: a in image ==>
         var p: nat := AlignToPage(a);
         if p in pages then pages[p][a - p] == image[a] else image[a] == 0
  }

  lemma BacksAgree(u: Setup, pages: Resident)
    requires u.Valid() && Backs(pages, u.image)
    ensures Agree(u, pages, u.image)
  {
    forall a | a in u.image
      ensures Observe(u, pages, a) == u.image[a]
    {
      FillRestores(u, a);
    }
  }

  // --------------------------------------------------------------------- one cycle

  method RunTest(worker: WorkerProcess, u: Setup, writes: seq<Write>, ghost mem: Image)
    requires u.Valid() && Sized(worker.resident) && Agree(u, worker.resident, mem)
    modifies worker`resident
    ensures Sized(worker.resident) && Agree(u, worker.resident, Written(mem, writes))
  {
    for i := 0 to |writes|
      invariant Sized(worker.resident) && Agree(u, worker.resident, Written(mem, writes[..i]))
    {
      assert writes[..i + 1][..i] == writes[..i];
      if writes[i].addr in u.image {
        StoreRefines(u, worker.resident, Written(mem, writes[..i]), writes[i].addr, writes[i].value);
        worker.resident := StoreByte(u, worker.resident, writes[i].addr, writes[i].value);
      }
    }
    assert writes[..|writes|] == writes;
  }

  /** The image copied back into the reset regions. */
  ghost function Restored(regions: seq<MemoryRegion>, image: Image, mem: Image): (r: Image)
    requires mem.Keys == image.Keys
    ensures r.Keys == image.Keys
  {
    map a | a in mem :: if InReset(regions, a) then image[a] else mem[a]
  }

  lemma DropRestores(u: Setup, regions: seq<MemoryRegion>, pages: Resident, mem: Image)
    requires SameMaps(u, regions) && u.Valid() && Sized(pages) && Agree(u, pages, mem)
    ensures var pages' := LazyReset.Without(pages, u.reset, AllOk(|u.reset|));
            Sized(pages') && Agree(u, pages', Restored(regions, u.image, mem))
  {
    SameMapsCovered(u, regions);
    ResetRefines(u, pages, mem, AllOk(|u.reset|));
    CopyRestores(u, regions, mem);
  }

  lemma CopyRestores(u: Setup, regions: seq<MemoryRegion>, mem: Image)
    requires u.reset == ResetRanges(regions) && mem.Keys == u.image.Keys
    ensures EagerStep(u, mem, Reset(AllOk(|u.reset|))) == Restored(regions, u.image, mem)
  {
    forall a | a in mem
      ensures u.Dropped(AllOk(|u.reset|), a) <==> InReset(regions, a)
    {
      DroppedIff(regions, a);
    }
  }

  lemma ServedAgree(u: Setup, pages: Resident, events: seq<UffdEvent>, mem: Image)
    requires u.Valid() && Sized(pages) && Agree(u, pages, mem)
    ensures Sized(FaultsServed(u, pages, events).0) && Agree(u, FaultsServed(u, pages, events).0, mem)
  {
    FaultsInvisible(u, pages, events, 0);
    forall a | a in mem
      ensures Observe(u, FaultsServed(u, pages, events).0, a) == mem[a]
    {
      FaultsInvisible(u, pages, events, a);
    }
  }

  method ResetWorker(worker: WorkerProcess, u: Setup, ghost regions: seq<MemoryRegion>, ghost mem: Image)
    requires SameMaps(u, regions) && u.Valid() && u.reset == worker.resetRegions && worker.snapshotEnabled
    requires Sized(worker.resident) && Agree(u, worker.resident, mem)
    modifies worker`resident
    ensures Sized(worker.resident) && Agree(u, worker.resident, Restored(regions, u.image, mem))
  {
    DropRestores(u, regions, worker.resident, mem);
    worker.ResetMemory(AllOk(|worker.resetRegions|));
  }

  method ServeFaults(mgr: SnapshotManager, pid: int, worker: WorkerProcess, u: Setup, events: seq<UffdEvent>, ghost mem: Image)
    requires pid in mgr.workers && u.golden == mgr.workers[pid].golden && u.reset == worker.resetRegions
    requires u.Valid() && Sized(worker.resident) && Agree(u, worker.resident, mem)
    modifies worker`resident
    ensures Sized(worker.resident) && Agree(u, worker.resident, mem)
  {
    ServedAgree(u, worker.resident, events, mem);
    assert u == Setup(u.image, mgr.workers[pid].golden, worker.resetRegions);
    var _ := HandlePendingFaults(mgr, pid, worker, events, u.image);
  }

  /** Run a test, reset, serve the faults: the reset regions are back, the rest is as the test left it. */
  method RunCycle(mgr: SnapshotManager, pid: int, worker: WorkerProcess, u: Setup, cycle: Cycle,
                  ghost regions: seq<MemoryRegion>, ghost mem: Image)
    requires pid in mgr.workers && u.golden == mgr.workers[pid].golden && u.reset == worker.resetRegions
    requires SameMaps(u, regions) && u.Valid() && worker.snapshotEnabled
    requires Sized(worker.resident) && Agree(u, worker.resident, mem)
    modifies worker`resident
    ensures Sized(worker.resident)
    ensures Agree(u, worker.resident, Restored(regions, u.image, Written(mem, cycle.writes)))
  {
    RunTest(worker, u, cycle.writes, mem);
    ResetWorker(worker, u, regions, Written(mem, cycle.writes));
    ServeFaults(mgr, pid, worker, u, cycle.events, Restored(regions, u.image, Written(mem, cycle.writes)));
  }

  // ----------------------------------------------------------------- the whole session

  /**
   What every address reads in the end: reset regions hold the image, all other
   addresses, the stack included, what the tests wrote there.
   */
  ghost predicate Isolated(u: Setup, pages: Resident, regions: seq<MemoryRegion>, cycles: seq<Cycle>)
    requires u.Valid() && Sized(pages)
  {
    forall a :: a in u.image ==>
      Observe(u, pages, a) ==
      if InReset(regions, a) && cycles != [] then u.image[a] else AllWritten(u.image, cycles)[a]
  }

  /**
   A fresh worker enters snapshot mode, the Supervisor captures it from the same
   maps, and then any number of tests run, each followed by a self-reset and by
   whatever faults are served.
   */
  method Drive(mgr: SnapshotManager, pid: int, worker: WorkerProcess, h: Handshake, regions: seq<MemoryRegion>,
               registers: seq<bool>, image: Image, cycles: seq<Cycle>)
    returns (protected: bool)
    requires !worker.snapshotEnabled && worker.resetRegions == [] && Backs(worker.resident, image)
    requires h.maps == Some(regions) && AllAligned(regions) && |registers| == |Snapshotted(regions)|
    modifies mgr, worker
    ensures protected <==>
              mgr.available && h.Announced() && h.stopped && AllMapped(image, Snapshotted(regions)) && false !in registers
    ensures protected ==>
              && pid in mgr.workers
              && var u := Setup(image, mgr.workers[pid].golden, worker.resetRegions);
                 u.Valid() && Sized(worker.resident) && Isolated(u, worker.resident, regions, cycles)
    ensures !protected ==> worker.resident == old(worker.resident)
  {
    var ready := worker.InitSnapshotMode(h);
    if ready != Ok(true) || !mgr.available {
      return false;
    }
    var registered := mgr.RegisterWorker(pid, regions, image, registers);
    if registered.Err? {
      return false;
    }
    protected := true;
    var u := Setup(image, mgr.workers[pid].golden, worker.resetRegions);
    assert SameMaps(u, regions);
    SameMapsCovered(u, regions);
    BacksAgree(u, worker.resident);
    ghost var mem := image;
    for i := 0 to |cycles|
      invariant worker.snapshotEnabled && pid in mgr.workers
      invariant u == Setup(image, mgr.workers[pid].golden, worker.resetRegions)
      invariant Sized(worker.resident) && Agree(u, worker.resident, mem)
      invariant forall a :: a in image ==>
                  mem[a] == if InReset(regions, a) && i > 0 then image[a] else AllWritten(image, cycles[..i])[a]
    {
      assert cycles[..i + 1][..i] == cycles[..i];
      RunCycle(mgr, pid, worker, u, cycles[i], regions, mem);
      ghost var mem' := Restored(regions, image, Written(mem, cycles[i].writes));
      forall a | a in image && !InReset(regions, a)
        ensures mem'[a] == AllWritten(image, cycles[..i + 1])[a]
      {
        WrittenAt(mem, AllWritten(image, cycles[..i]), cycles[i].writes, a);
      }
      mem := mem';
    }
    assert cycles[..|cycles|] == cycles;
  }
}
