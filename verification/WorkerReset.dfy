/** The worker's self-reset and the Supervisor's fault loop, and what they promise together. */
module WorkerReset {
  import opened Wire
  import opened Outcomes
  import opened Snapshot
  import opened LazyReset

  /** What the worker caches: the snapshotted regions except the stack it runs on. */
  function ResetRanges(regions: seq<MemoryRegion>): (rs: seq<Range>)
    ensures forall x :: x in rs <==>
              exists r :: r in regions && r.ShouldSnapshot() && !r.IsStack() && x == Range(r.start, r.len)
  {
    if regions == [] then []
    else
      var r := regions[0];
      assert forall x :: x in regions <==> x == r || x in regions[1..];
      (if r.ShouldSnapshot() && !r.IsStack() then [Range(r.start, r.len)] else []) + ResetRanges(regions[1..])
  }

  /** How each part of entering snapshot mode turns out; `maps` is what the worker reads of its own mappings. */
  datatype Handshake = Handshake(created: bool, connected: bool, sent: bool, maps: Option<seq<MemoryRegion>>, stopped: bool)
  {
    /** The Supervisor has the worker's fault descriptor. */
    predicate Announced() { created && connected && sent }
  }

  class WorkerProcess {
    var resident: Resident
    var resetRegions: seq<Range>
    var snapshotEnabled: bool

    constructor (resident: Resident)
      ensures this.resident == resident && resetRegions == [] && !snapshotEnabled
    {
      this.resident, resetRegions, snapshotEnabled := resident, [], false;
    }

    /** A reset whose calls all succeed drops this address. */
    ghost predicate Resets(a: nat)
      reads this
    {
      snapshotEnabled && InDropped(resetRegions, AllOk(|resetRegions|), a)
    }

    /**
     Hand the descriptor over, cache the ranges to reset, stop for the snapshot.
     Before the stop any failure falls back to plain forking; unreadable maps only
     leave the cache as it was, so that resets drop nothing.
     */
    method InitSnapshotMode(h: Handshake) returns (r: Outcome<bool>)
      modifies this`resetRegions, this`snapshotEnabled
      ensures r.Err? <==> h.Announced() && !h.stopped
      ensures r == Ok(true) <==> h.Announced() && h.stopped
      ensures !h.Announced() ==> resetRegions == old(resetRegions)
      ensures snapshotEnabled == (old(snapshotEnabled) || r == Ok(true))
      ensures old(!snapshotEnabled && resetRegions == []) ==>
                forall a :: Resets(a) <==> r == Ok(true) && h.maps.Some? && InReset(h.maps.value, a)
      ensures h.Announced() && h.maps.Some? ==> resetRegions == ResetRanges(h.maps.value)
    {
      if !h.created {
        return Ok(false);
      }
      if !h.connected {
        return Ok(false);
      }
      if !h.sent {
        return Ok(false);
      }
      match h.maps {
        case Some(regions) =>
          resetRegions := ResetRanges(regions);
          forall a {
            DroppedIff(regions, a);
          }
        case None =>
      }
      if !h.stopped {
        return Err("Failed to SIGSTOP");
      }
      snapshotEnabled := true;
      r := Ok(true);
    }

    /** Drop every cached range whose `madvise` succeeds; a failure only skips that range. */
    method ResetMemory(ok: seq<bool>)
      requires |ok| == |resetRegions|
      modifies this`resident
      ensures resident == if snapshotEnabled then LazyReset.Without(old(resident), resetRegions, ok) else old(resident)
    {
      if !snapshotEnabled {
        return;
      }
      assert Without(resident, resetRegions[..0], ok) == resident;
      for i := 0 to |resetRegions|
        invariant resident == Without(old(resident), resetRegions[..i], ok)
      {
        var range := resetRegions[i];
        WithoutSnoc(old(resident), resetRegions[..i], range, ok);
        assert resetRegions[..i + 1] == resetRegions[..i] + [range];
        if ok[i] {
          resident := map p | p in resident && !range.Has(p) :: resident[p];
        }
      }
      assert resetRegions[..|resetRegions|] == resetRegions;
    }
  }

  lemma WithoutSnoc(pages: Resident, ranges: seq<Range>, range: Range, ok: seq<bool>)
    requires |ranges| < |ok|
    ensures var before := Without(pages, ranges, ok);
            Without(pages, ranges + [range], ok) ==
            if ok[|ranges|] then map p | p in before && !range.Has(p) :: before[p] else before
  {}

  // ----------------------------------------------------------------- fault loop

  datatype UffdEvent = Pagefault(addr: nat) | OtherEvent | NoEvent | ReadError

  /** The faults delivered before the descriptor runs dry, until one cannot be served. */
  function FaultsServed(u: Setup, pages: Resident, events: seq<UffdEvent>): (Resident, Outcome<nat>)
    decreases |events|
  {
    if events == [] || events[0].NoEvent? || events[0].ReadError? then (pages, Ok(0))
    else if events[0].OtherEvent? then FaultsServed(u, pages, events[1..])
    else if AlignToPage(events[0].addr) in pages then (pages, Err("copy failed"))
    else
      var (r, n) := FaultsServed(u, HandleFault(u, pages, events[0].addr), events[1..]);
      (r, if n.Ok? then Ok(n.value + 1) else n)
  }

  /** The events read before the descriptor runs dry. */
  function Pending(events: seq<UffdEvent>): (n: nat)
    ensures n <= |events| && (forall i :: 0 <= i < n ==> !events[i].NoEvent? && !events[i].ReadError?)
    ensures n < |events| ==> events[n].NoEvent? || events[n].ReadError?
  {
    if events == [] || events[0].NoEvent? || events[0].ReadError? then 0 else 1 + Pending(events[1..])
  }

  function FaultCount(events: seq<UffdEvent>, n: nat): nat
    requires n <= |events|
  {
    if n == 0 then 0 else FaultCount(events[1..], n - 1) + if events[0].Pagefault? then 1 else 0
  }

  /** Two faults on one page. */
  ghost predicate Repeats(events: seq<UffdEvent>, n: nat) {
    exists i, j :: 0 <= i < j < n && j < |events| && events[i].Pagefault? && events[j].Pagefault?
                && AlignToPage(events[i].addr) == AlignToPage(events[j].addr)
  }

  /** A fault on a page that is there. */
  ghost predicate Hits(pages: Resident, events: seq<UffdEvent>, n: nat) {
    exists i :: 0 <= i < n && i < |events| && events[i].Pagefault? && AlignToPage(events[i].addr) in pages
  }

  /**
   If every pending fault is on a missing page, and on a different one, all of them
   are served and counted: their pages are filled, and no others change.
   */
  lemma {:induction false} FaultsAllServed(u: Setup, pages: Resident, events: seq<UffdEvent>)
    requires !Repeats(events, Pending(events)) && !Hits(pages, events, Pending(events))
    ensures var (pages', n) := FaultsServed(u, pages, events);
            && n == Ok(FaultCount(events, Pending(events)))
            && (forall p :: p in pages ==> p in pages' && pages'[p] == pages[p])
            && (forall p :: p in pages' && p !in pages ==> pages'[p] == u.Fill(p))
            && forall i :: 0 <= i < Pending(events) && events[i].Pagefault? ==> AlignToPage(events[i].addr) in pages'
    decreases |events|
  {
    if Pending(events) > 0 {
      var rest, k := events[1..], Pending(events);
      assert forall i :: 0 <= i < k - 1 ==> rest[i] == events[i + 1];
      var next := if events[0].Pagefault? then HandleFault(u, pages, events[0].addr) else pages;
      RestFresh(u, pages, events, k);
      FaultsAllServed(u, next, rest);
    }
  }

  lemma RestFresh(u: Setup, pages: Resident, events: seq<UffdEvent>, k: nat)
    requires 0 < k <= |events| && !Repeats(events, k) && !Hits(pages, events, k)
    ensures !Repeats(events[1..], k - 1)
    ensures !Hits(if events[0].Pagefault? then HandleFault(u, pages, events[0].addr) else pages, events[1..], k - 1)
  {
    var rest := events[1..];
    forall i, j | 0 <= i < j < k - 1 && rest[i].Pagefault? && rest[j].Pagefault?
      ensures AlignToPage(rest[i].addr) != AlignToPage(rest[j].addr)
    {
      assert events[i + 1] == rest[i] && events[j + 1] == rest[j];
    }
    forall i | 0 <= i < k - 1 && rest[i].Pagefault?
      ensures AlignToPage(rest[i].addr) !in pages
      ensures events[0].Pagefault? ==> AlignToPage(rest[i].addr) != AlignToPage(events[0].addr)
    {
      assert events[i + 1] == rest[i];
    }
  }

  /** Read events and restore a page for each fault, from the golden map or with zeros. */
  method HandlePendingFaults(mgr: SnapshotManager, pid: int, worker: WorkerProcess, events: seq<UffdEvent>, ghost image: Image)
    returns (r: Outcome<nat>)
    modifies worker`resident
    ensures pid !in mgr.workers ==> r.Err? && worker.resident == old(worker.resident)
    ensures pid in mgr.workers ==>
              var u := Setup(image, mgr.workers[pid].golden, worker.resetRegions);
              var (pages, n) := FaultsServed(u, old(worker.resident), events);
              worker.resident == pages && (r.Ok? <==> n.Ok?) && (r.Ok? ==> r == n)
  {
    if pid !in mgr.workers {
      return Err("not registered");
    }
    var golden := mgr.workers[pid].golden;
    ghost var u := Setup(image, golden, worker.resetRegions);
    var handled := 0;
    for i := 0 to |events|
      invariant var (pages, n) := FaultsServed(u, old(worker.resident), events);
                var (rest, m) := FaultsServed(u, worker.resident, events[i..]);
                pages == rest && (n.Ok? <==> m.Ok?) && (n.Ok? ==> n.value == handled + m.value)
    {
      match events[i] {
        case Pagefault(addr) =>
          var page: nat := AlignToPage(addr);
          if page in worker.resident {
            return Err("copy failed");
          }
          if page in golden {
            worker.resident := worker.resident[page := golden[page]];
          } else {
            worker.resident := worker.resident[page := ZeroPage()];
          }
          handled := handled + 1;
        case OtherEvent =>
        case NoEvent => return Ok(handled);
        case ReadError => return Ok(handled);
      }
    }
    r := Ok(handled);
  }

  /** The fault loop never changes what the worker can observe, in whatever order faults come. */
  lemma {:induction false} FaultsInvisible(u: Setup, pages: Resident, events: seq<UffdEvent>, a: nat)
    requires u.Valid() && Sized(pages)
    ensures Sized(FaultsServed(u, pages, events).0)
    ensures Observe(u, FaultsServed(u, pages, events).0, a) == Observe(u, pages, a)
    decreases |events|
  {
    if events == [] || events[0].NoEvent? || events[0].ReadError? {
    } else if events[0].OtherEvent? {
      FaultsInvisible(u, pages, events[1..], a);
    } else if AlignToPage(events[0].addr) !in pages {
      FaultInvisible(u, pages, events[0].addr, a);
      FaultsInvisible(u, HandleFault(u, pages, events[0].addr), events[1..], a);
    }
  }

  // --------------------------------------------------------------- main results

  /** Worker and Supervisor saw the same page-aligned maps. */
  ghost predicate SameMaps(u: Setup, regions: seq<MemoryRegion>) {
    && AllAligned(regions)
    && GoldenFor(u.golden, Snapshotted(regions), u.image)
    && u.reset == ResetRanges(regions)
  }

  /** Then every page a reset drops has been captured: the zero-fill branch is never taken for it. */
  lemma SameMapsCovered(u: Setup, regions: seq<MemoryRegion>)
    requires SameMaps(u, regions)
    ensures u.Valid() && AlignedRanges(u.reset) && ResetCovered(u)
  {
    forall i | 0 <= i < |u.reset|
      ensures u.reset[i].Aligned()
      ensures forall p: nat :: u.reset[i].Has(p) && p % PAGE_SIZE == 0 ==> p in u.golden
    {
      assert u.reset[i] in u.reset;
      var r :| r in regions && r.ShouldSnapshot() && !r.IsStack() && u.reset[i] == Range(r.start, r.len);
      forall p: nat | u.reset[i].Has(p) && p % PAGE_SIZE == 0
        ensures p in u.golden
      {
        assert r in Snapshotted(regions) && r.Has(p);
      }
    }
  }

  function AllOk(n: nat): (ok: seq<bool>)
    ensures |ok| == n && forall i :: 0 <= i < n ==> ok[i]
  {
    seq(n, i => true)
  }

  /** Addresses the worker resets: snapshotted, and not on the stack. */
  ghost predicate InReset(regions: seq<MemoryRegion>, a: nat) {
    exists r :: r in regions && r.ShouldSnapshot() && !r.IsStack() && r.Has(a)
  }

  lemma DroppedIff(regions: seq<MemoryRegion>, a: nat)
    ensures InDropped(ResetRanges(regions), AllOk(|ResetRanges(regions)|), a) <==> InReset(regions, a)
  {
    var reset := ResetRanges(regions);
    var ok := AllOk(|reset|);
    if r :| r in regions && r.ShouldSnapshot() && !r.IsStack() && r.Has(a) {
      assert Range(r.start, r.len) in reset;
      var i :| 0 <= i < |reset| && reset[i] == Range(r.start, r.len);
      assert reset[i].Has(a);
    }
    if InDropped(reset, ok, a) {
      var i :| 0 <= i < |reset| && i < |ok| && ok[i] && reset[i].Has(a);
      assert reset[i] in reset;
    }
  }

  /**
   After any history of stores, faults and resets, a self-reset whose calls all
   succeed puts every snapshotted non-stack address back to its value at the
   freeze point, and leaves every other address, the stack included, as it was.
   */
  lemma SelfResetRestores(u: Setup, regions: seq<MemoryRegion>, pages: Resident, ops: seq<Op>, a: nat)
    requires SameMaps(u, regions) && u.Valid() && Sized(pages) && Agree(u, pages, u.image) && a in u.image
    ensures var before := LazyRun(u, pages, ops);
            var after := LazyStep(u, before, Reset(AllOk(|u.reset|)));
            Observe(u, after, a) == if InReset(regions, a) then u.image[a] else EagerRun(u, u.image, ops)[a]
  {
    SameMapsCovered(u, regions);
    LazyRefinesEager(u, pages, ops);
    var before, ok := LazyRun(u, pages, ops), AllOk(|u.reset|);
    StepRefines(u, before, EagerRun(u, u.image, ops), Reset(ok));
    DroppedIff(regions, a);
  }
}
