/**
 Golden pages, lazy restoration and the worker's self-reset, over an abstract
 memory: `Image` is what every mapped address holds while the worker is stopped.
 */
module Snapshot {
  import opened Wire
  import opened Strings
  import opened Outcomes

  const PAGE_SIZE: nat := 4096

  datatype MemoryRegion = MemoryRegion(start: nat, end: nat, len: nat, perms: string, name: string)
  {
    /** Writable heap, stack, libpython or private anonymous memory. */
    predicate ShouldSnapshot() {
      && 'w' in perms
      && !Contains(name, "[vdso]") && !Contains(name, "[vsyscall]")
      && (Contains(name, "[heap]") || Contains(name, "[stack]") || Contains(name, "libpython")
          || (name == "" && 'p' in perms))
    }

    predicate IsStack() { Contains(name, "[stack]") }

    /** What the kernel guarantees of every mapping. */
    predicate Aligned() { start % PAGE_SIZE == 0 && len % PAGE_SIZE == 0 }

    predicate Has(a: nat) { start <= a < start + len }
  }

  /** `addr & !(PAGE_SIZE - 1)`. */
  function AlignToPage(addr: nat): (p: nat)
    ensures p % PAGE_SIZE == 0 && p <= addr < p + PAGE_SIZE
  {
    addr - addr % PAGE_SIZE
  }

  /** An aligned region holds the whole page of each of its addresses. */
  lemma RegionHoldsPage(r: MemoryRegion, a: nat)
    requires r.Aligned()
    ensures r.Has(a) <==> r.Has(AlignToPage(a))
    ensures r.Has(a) ==> AlignToPage(a) + PAGE_SIZE <= r.start + r.len
  {}

  type Page = seq<byte>
  type Image = map<nat, byte>

  // ------------------------------------------------------------------ capture

  ghost predicate Mapped(image: Image, start: nat, len: nat) {
    forall a :: start <= a < start + len ==> a in image
  }

  /** `process_vm_readv`: the bytes up to the first unmapped address. */
  method ReadProcess(image: Image, start: nat, len: nat) returns (buffer: seq<byte>)
    ensures |buffer| <= len
    ensures forall a :: start <= a < start + |buffer| ==> a in image && buffer[a - start] == image[a]
    ensures |buffer| == len <==> Mapped(image, start, len)
  {
    buffer := [];
    while |buffer| < len && start + |buffer| in image
      invariant |buffer| <= len
      invariant forall a :: start <= a < start + |buffer| ==> a in image && buffer[a - start] == image[a]
      decreases len - |buffer|
    {
      buffer := buffer + [image[start + |buffer|]];
    }
  }

  /** `data` is what the image holds from `p` on, to the end of the page or of the region. */
  ghost predicate HoldsPage(data: Page, image: Image, p: nat, end: nat) {
    && p < end && |data| == Min(PAGE_SIZE, end - p)
    && forall a :: p <= a < p + |data| ==> a in image && data[a - p] == image[a]
  }

  /** Read a region and split it into pages. */
  method CaptureRegionPages(image: Image, region: MemoryRegion) returns (r: Outcome<map<nat, Page>>)
    ensures r.Ok? <==> Mapped(image, region.start, region.len)
    ensures r.Ok? ==>
              && (forall p: nat :: p in r.value <==> region.Has(p) && (p - region.start) % PAGE_SIZE == 0)
              && forall p :: p in r.value ==> HoldsPage(r.value[p], image, p, region.start + region.len)
  {
    var buffer := ReadProcess(image, region.start, region.len);
    if |buffer| != region.len {
      return Err("Partial snapshot read for " + region.name);
    }
    var pages: map<nat, Page> := map[];
    var offset := 0;
    while offset < region.len
      invariant offset % PAGE_SIZE == 0
      invariant forall p: nat :: p in pages <==>
                  region.Has(p) && p < region.start + offset && (p - region.start) % PAGE_SIZE == 0
      invariant forall p :: p in pages ==> HoldsPage(pages[p], image, p, region.start + region.len)
    {
      var pageAddr := region.start + offset;
      var pageEnd := Min(offset + PAGE_SIZE, region.len);
      var data := buffer[offset..pageEnd];
      pages := pages[pageAddr := data];
      offset := offset + PAGE_SIZE;
    }
    r := Ok(pages);
  }

  // ------------------------------------------------------------------- golden

  datatype WorkerSnapshot = WorkerSnapshot(golden: map<nat, Page>, regions: seq<MemoryRegion>)

  ghost predicate Covered(regions: seq<MemoryRegion>, a: nat) {
    exists r :: r in regions && r.Has(a)
  }

  /** The keys are the pages of the regions, and each page is what the image holds. */
  ghost predicate GoldenFor(golden: map<nat, Page>, regions: seq<MemoryRegion>, image: Image) {
    && (forall p: nat :: p in golden <==> p % PAGE_SIZE == 0 && Covered(regions, p))
    && forall p :: p in golden ==> WholePage(golden[p], image, p)
  }

  ghost predicate WholePage(data: Page, image: Image, p: nat) {
    |data| == PAGE_SIZE && forall a :: p <= a < p + PAGE_SIZE ==> a in image && data[a - p] == image[a]
  }

  ghost predicate AllAligned(regions: seq<MemoryRegion>) {
    forall r :: r in regions ==> r.Aligned()
  }

  lemma MergeRegion(golden: map<nat, Page>, done: seq<MemoryRegion>, region: MemoryRegion,
                    pages: map<nat, Page>, image: Image)
    requires GoldenFor(golden, done, image) && region.Aligned()
    requires forall p: nat :: p in pages <==> region.Has(p) && (p - region.start) % PAGE_SIZE == 0
    requires forall p :: p in pages ==> HoldsPage(pages[p], image, p, region.start + region.len)
    ensures GoldenFor(golden + pages, done + [region], image)
  {
    var merged, all := golden + pages, done + [region];
    forall p: nat
      ensures p in merged <==> p % PAGE_SIZE == 0 && Covered(all, p)
    {
      if p in golden {
        var r :| r in done && r.Has(p);
      }
      if Covered(all, p) && p % PAGE_SIZE == 0 {
        var r :| r in all && r.Has(p);
        assert r in done || r == region;
      }
    }
    forall p | p in merged
      ensures WholePage(merged[p], image, p)
    {
      if p in pages {
        RegionHoldsPage(region, p);
      }
    }
  }

  function Snapshotted(regions: seq<MemoryRegion>): (rs: seq<MemoryRegion>)
    ensures forall r :: r in rs <==> r in regions && r.ShouldSnapshot()
  {
    if regions == [] then []
    else (if regions[0].ShouldSnapshot() then [regions[0]] else []) + Snapshotted(regions[1..])
  }

  /** Every address of a snapshotted region is found in its golden page. */
  lemma GoldenByte(golden: map<nat, Page>, regions: seq<MemoryRegion>, image: Image, r: MemoryRegion, a: nat)
    requires GoldenFor(golden, regions, image) && AllAligned(regions) && r in regions && r.Has(a)
    ensures AlignToPage(a) in golden && a in image
    ensures |golden[AlignToPage(a)]| == PAGE_SIZE && golden[AlignToPage(a)][a - AlignToPage(a)] == image[a]
  {}

  ghost predicate AllMapped(image: Image, regions: seq<MemoryRegion>) {
    forall m :: m in regions ==> Mapped(image, m.start, m.len)
  }

  /** Capture region by region; the first failure ends it. */
  method CaptureAll(image: Image, regions: seq<MemoryRegion>) returns (r: Outcome<map<nat, Page>>)
    ensures r.Ok? <==> AllMapped(image, regions)
    ensures r.Ok? && AllAligned(regions) ==> GoldenFor(r.value, regions, image)
  {
    var golden: map<nat, Page> := map[];
    for i := 0 to |regions|
      invariant AllMapped(image, regions[..i])
      invariant AllAligned(regions) ==> GoldenFor(golden, regions[..i], image)
    {
      var pages := CaptureRegionPages(image, regions[i]);
      assert regions[i] in regions;
      assert regions[..i + 1] == regions[..i] + [regions[i]];
      if pages.Err? {
        return Err(pages.error);
      }
      if AllAligned(regions) {
        MergeRegion(golden, regions[..i], regions[i], pages.value, image);
      }
      golden := golden + pages.value;
    }
    assert regions[..|regions|] == regions;
    r := Ok(golden);
  }

  class SnapshotManager {
    const available: bool
    var workers: map<int, WorkerSnapshot>

    constructor (available: bool)
      ensures this.available == available && workers == map[]
    {
      this.available := available;
      workers := map[];
    }

    /** Capture and register a stopped worker; `registers` says which registrations succeed. */
    method RegisterWorker(pid: int, regions: seq<MemoryRegion>, image: Image, registers: seq<bool>)
      returns (r: Outcome<()>)
      requires |registers| == |Snapshotted(regions)|
      modifies this
      ensures r.Err? || !available ==> workers == old(workers)
      ensures available ==>
                (r.Ok? <==> AllMapped(image, Snapshotted(regions)) && false !in registers)
      ensures available && r.Ok? ==>
                && pid in workers && workers == old(workers)[pid := workers[pid]]
                && workers[pid].regions == Snapshotted(regions)
                && (AllAligned(regions) ==> GoldenFor(workers[pid].golden, Snapshotted(regions), image))
    {
      if !available {
        return Ok(());
      }
      var chosen := Snapshotted(regions);
      var golden := CaptureAll(image, chosen);
      if golden.Err? {
        return Err(golden.error);
      }
      if false in registers {
        return Err("Failed to register region");
      }
      workers := workers[pid := WorkerSnapshot(golden.value, chosen)];
      r := Ok(());
    }
  }
}
