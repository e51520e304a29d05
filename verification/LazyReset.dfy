/**
 Dropping pages and restoring them on demand, against the simple alternative of
 copying the golden image back at once.
 */
module LazyReset {
  import opened Wire
  import opened Snapshot

  /** A cached (start, len) pair of the worker. */
  datatype Range = Range(start: nat, len: nat)
  {
    predicate Has(a: nat) { start <= a < start + len }
    predicate Aligned() { start % PAGE_SIZE == 0 && len % PAGE_SIZE == 0 }
  }

  /** A stopped worker's image, its golden pages, and the ranges it will drop. */
  datatype Setup = Setup(image: Image, golden: map<nat, Page>, reset: seq<Range>)
  {
    ghost predicate Valid() {
      forall p :: p in golden ==> WholePage(golden[p], image, p)
    }

    /** What the fault handler, or the kernel for unregistered memory, puts into a missing page. */
    function Fill(p: nat): Page {
      if p in golden then golden[p] else ZeroPage()
    }

    predicate Dropped(ok: seq<bool>, a: nat) { InDropped(reset, ok, a) }
  }

  /** Is `a` in a range whose `madvise` call succeeds? */
  predicate InDropped(reset: seq<Range>, ok: seq<bool>, a: nat) {
    exists i :: 0 <= i < |reset| && i < |ok| && ok[i] && reset[i].Has(a)
  }

  function ZeroPage(): (p: Page)
    ensures |p| == PAGE_SIZE && forall i :: 0 <= i < |p| ==> p[i] == 0
  {
    seq(PAGE_SIZE, i => 0)
  }

  /** The pages that are backed by memory right now. */
  type Resident = map<nat, Page>

  predicate Sized(pages: Resident) { forall p :: p in pages ==> |pages[p]| == PAGE_SIZE }

  /** What a load from `a` returns, handling a fault first if there is one. */
  function Observe(u: Setup, pages: Resident, a: nat): byte
    requires u.Valid() && Sized(pages)
  {
    var p: nat := AlignToPage(a);
    assert p in u.golden ==> WholePage(u.golden[p], u.image, p);
    if p in pages then pages[p][a - p] else u.Fill(p)[a - p]
  }

  // ------------------------------------------------------------------- the steps

  datatype Op = Store(addr: nat, value: byte) | Fault(addr: nat) | Reset(ok: seq<bool>)

  /** The fault handler; copying onto a page that is there fails and changes nothing. */
  function HandleFault(u: Setup, pages: Resident, addr: nat): Resident {
    var p: nat := AlignToPage(addr);
    if p in pages then pages else pages[p := u.Fill(p)]
  }

  function StoreByte(u: Setup, pages: Resident, addr: nat, v: byte): Resident
    requires u.Valid() && Sized(pages)
  {
    var p: nat := AlignToPage(addr);
    assert p in u.golden ==> WholePage(u.golden[p], u.image, p);
    var ready: Resident := HandleFault(u, pages, addr);
    var page: Page := ready[p];
    ready[p := page[addr - p := v]]
  }

  function Without(pages: Resident, reset: seq<Range>, ok: seq<bool>): Resident {
    map p | p in pages && !InDropped(reset, ok, p) :: pages[p]
  }

  /** Page-aligned ranges lose their pages. */
  function Drop(u: Setup, pages: Resident, ok: seq<bool>): Resident {
    Without(pages, u.reset, ok)
  }

  function LazyStep(u: Setup, pages: Resident, op: Op): (r: Resident)
    requires u.Valid() && Sized(pages)
    ensures Sized(r)
  {
    assert forall p :: p in u.golden ==> WholePage(u.golden[p], u.image, p);
    match op
    case Store(a, v) => if a in u.image then StoreByte(u, pages, a, v) else pages
    case Fault(a) => HandleFault(u, pages, a)
    case Reset(ok) => Drop(u, pages, ok)
  }

  function LazyRun(u: Setup, pages: Resident, ops: seq<Op>): (r: Resident)
    requires u.Valid() && Sized(pages)
    ensures Sized(r)
  {
    if ops == [] then pages else LazyStep(u, LazyRun(u, pages, ops[..|ops| - 1]), ops[|ops| - 1])
  }

  // -------------------------------------------------------------- the reference

  /** Plain memory; a reset copies the image back into the dropped ranges. */
  function EagerStep(u: Setup, mem: Image, op: Op): (r: Image)
    requires mem.Keys == u.image.Keys
    ensures r.Keys == u.image.Keys
  {
    match op
    case Store(a, v) => if a in u.image then mem[a := v] else mem
    case Fault(_) => mem
    case Reset(ok) => map a | a in mem :: if u.Dropped(ok, a) then u.image[a] else mem[a]
  }

  function EagerRun(u: Setup, mem: Image, ops: seq<Op>): (r: Image)
    requires mem.Keys == u.image.Keys
    ensures r.Keys == u.image.Keys
  {
    if ops == [] then mem else EagerStep(u, EagerRun(u, mem, ops[..|ops| - 1]), ops[|ops| - 1])
  }

  /** Every mapped address reads as the reference memory says. */
  ghost predicate Agree(u: Setup, pages: Resident, mem: Image)
    requires u.Valid() && Sized(pages)
  {
    mem.Keys == u.image.Keys && forall a :: a in mem ==> Observe(u, pages, a) == mem[a]
  }

  // ----------------------------------------------------------------- refinement

  ghost predicate AlignedRanges(reset: seq<Range>) {
    forall i :: 0 <= i < |reset| ==> reset[i].Aligned()
  }

  /** Aligned ranges drop whole pages. */
  lemma DroppedByPage(u: Setup, ok: seq<bool>, a: nat)
    requires AlignedRanges(u.reset)
    ensures u.Dropped(ok, a) <==> u.Dropped(ok, AlignToPage(a))
  {}

  /** Handling a fault is invisible: no address changes its value. */
  lemma FaultInvisible(u: Setup, pages: Resident, addr: nat, a: nat)
    requires u.Valid() && Sized(pages)
    ensures Sized(HandleFault(u, pages, addr))
    ensures Observe(u, HandleFault(u, pages, addr), a) == Observe(u, pages, a)
  {}

  lemma StoreVisible(u: Setup, pages: Resident, addr: nat, v: byte, a: nat)
    requires u.Valid() && Sized(pages)
    ensures Sized(StoreByte(u, pages, addr, v))
    ensures Observe(u, StoreByte(u, pages, addr, v), a) == if a == addr then v else Observe(u, pages, a)
  {}

  /** After a reset a dropped address reads what Fill provides, any other what it read before. */
  lemma DropVisible(u: Setup, pages: Resident, ok: seq<bool>, a: nat)
    requires u.Valid() && Sized(pages) && AlignedRanges(u.reset)
    ensures var p: nat := AlignToPage(a);
            |u.Fill(p)| == PAGE_SIZE &&
            Observe(u, Drop(u, pages, ok), a) == if u.Dropped(ok, a) then u.Fill(p)[a - p] else Observe(u, pages, a)
  {
    var p: nat := AlignToPage(a);
    DroppedByPage(u, ok, a);
  }

  /** A page restored for `a` holds the frozen byte exactly if it is golden, or the byte was zero. */
  lemma FillRestores(u: Setup, a: nat)
    requires u.Valid() && a in u.image
    ensures var p: nat := AlignToPage(a);
            |u.Fill(p)| == PAGE_SIZE && (u.Fill(p)[a - p] == u.image[a] <==> p in u.golden || u.image[a] == 0)
  {}

  /**
   Right after a reset a dropped address reads its value at the freeze point if
   and only if its page was captured or that value was zero.
   */
  lemma ResetRestoresIff(u: Setup, pages: Resident, ok: seq<bool>, a: nat)
    requires u.Valid() && Sized(pages) && AlignedRanges(u.reset) && a in u.image && u.Dropped(ok, a)
    ensures Observe(u, LazyStep(u, pages, Reset(ok)), a) == u.image[a] <==>
            AlignToPage(a) in u.golden || u.image[a] == 0
  {
    DropVisible(u, pages, ok, a);
    FillRestores(u, a);
  }

  /** Every dropped page was captured. */
  ghost predicate ResetCovered(u: Setup) {
    forall i, p: nat :: 0 <= i < |u.reset| && u.reset[i].Has(p) && p % PAGE_SIZE == 0
      ==> p in u.golden
  }

  lemma DroppedIsGolden(u: Setup, ok: seq<bool>, a: nat)
    requires AlignedRanges(u.reset) && ResetCovered(u) && u.Dropped(ok, a)
    ensures AlignToPage(a) in u.golden
  {}

  lemma ResetRefines(u: Setup, pages: Resident, mem: Image, ok: seq<bool>)
    requires u.Valid() && Sized(pages) && AlignedRanges(u.reset) && ResetCovered(u) && Agree(u, pages, mem)
    ensures Agree(u, Drop(u, pages, ok), EagerStep(u, mem, Reset(ok)))
  {
    forall a | a in u.image
      ensures Observe(u, Drop(u, pages, ok), a) == EagerStep(u, mem, Reset(ok))[a]
    {
      DropVisible(u, pages, ok, a);
      if u.Dropped(ok, a) {
        DroppedIsGolden(u, ok, a);
        FillRestores(u, a);
      }
    }
  }

  lemma StoreRefines(u: Setup, pages: Resident, mem: Image, addr: nat, v: byte)
    requires u.Valid() && Sized(pages) && Agree(u, pages, mem) && addr in u.image
    ensures Sized(StoreByte(u, pages, addr, v)) && Agree(u, StoreByte(u, pages, addr, v), mem[addr := v])
  {
    StoreVisible(u, pages, addr, v, addr);
    forall a | a in u.image
      ensures Observe(u, StoreByte(u, pages, addr, v), a) == mem[addr := v][a]
    {
      StoreVisible(u, pages, addr, v, a);
    }
  }

  lemma FaultRefines(u: Setup, pages: Resident, mem: Image, addr: nat)
    requires u.Valid() && Sized(pages) && Agree(u, pages, mem)
    ensures Sized(HandleFault(u, pages, addr)) && Agree(u, HandleFault(u, pages, addr), mem)
  {}

  lemma StepRefines(u: Setup, pages: Resident, mem: Image, op: Op)
    requires u.Valid() && Sized(pages) && AlignedRanges(u.reset) && ResetCovered(u)
    requires Agree(u, pages, mem)
    ensures Agree(u, LazyStep(u, pages, op), EagerStep(u, mem, op))
  {
    match op
    case Store(addr, v) =>
      if addr in u.image {
        StoreRefines(u, pages, mem, addr, v);
      }
    case Fault(addr) => FaultRefines(u, pages, mem, addr);
    case Reset(ok) => ResetRefines(u, pages, mem, ok);
  }

  /** Over any run of stores, faults and resets the lazy scheme is the eager one. */
  lemma {:induction false} LazyRefinesEager(u: Setup, pages: Resident, ops: seq<Op>)
    requires u.Valid() && Sized(pages) && AlignedRanges(u.reset) && ResetCovered(u)
    requires Agree(u, pages, u.image)
    ensures Agree(u, LazyRun(u, pages, ops), EagerRun(u, u.image, ops))
  {
    if ops != [] {
      var k := |ops| - 1;
      LazyRefinesEager(u, pages, ops[..k]);
      StepRefines(u, LazyRun(u, pages, ops[..k]), EagerRun(u, u.image, ops[..k]), ops[k]);
    }
  }
}
