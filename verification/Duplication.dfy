/** New page directories (vm.c: setupkvm, copyuvm, freevm): the kernel's regions, what a directory
    costs, copies of user pages, and giving everything back. */
module Duplication {
  import opened Sets
  import opened KernelMemory
  import opened UserMemory
  import opened Mapping
  import opened Resizing

  // ----- the kernel part of every address space -----

  const KERNLINK: nat := 0x8010_0000
  const EXTMEM: nat := 0x10_0000
  const PHYSTOP: nat := 0xE00_0000
  const DEVSPACE: nat := 0xFE00_0000

  datatype Region = Region(virt: Uint, start: Uint, end: Uint, perm: nat)

  /** Where the linker puts the kernel's writable data. */
  predicate DataOk(data: nat) { data % PGSIZE == 0 && KERNLINK < data < KERNBASE + PHYSTOP }

  /** The table kmap. */
  function Kmap(data: nat, i: nat): (r: Region)
    requires DataOk(data) && i < 4
  {
    if i == 0 then Region(KERNBASE, 0, EXTMEM, PTE_W)
    else if i == 1 then Region(KERNLINK, KERNLINK - KERNBASE, data - KERNBASE, 0)
    else if i == 2 then Region(data, data - KERNBASE, PHYSTOP, PTE_W)
    else Region(DEVSPACE, DEVSPACE, 0, PTE_W)
  }

  /** What the first i regions reach up to, as a page number. */
  function Bound(data: nat, i: nat): (v: nat)
    requires DataOk(data) && i <= 4
    ensures USERPAGES <= v <= VPAGES
  {
    if i == 0 then USERPAGES else if i == 1 then KERNLINK / PGSIZE else if i == 2 then data / PGSIZE
    else if i == 3 then (KERNBASE + PHYSTOP) / PGSIZE else VPAGES
  }

  /** What a kernel page is mapped to: low physical memory, the kernel's text read-only, all memory up to
      PHYSTOP writable, and the devices at the top of the address space. */
  function KernelEntry(data: nat, v: nat): (w: Word)
    requires DataOk(data) && USERPAGES <= v < VPAGES
  {
    if v < KERNLINK / PGSIZE then PteFor(v - USERPAGES, PTE_W)
    else if v < data / PGSIZE then PteFor(v - USERPAGES, 0)
    else if v < (KERNBASE + PHYSTOP) / PGSIZE then PteFor(v - USERPAGES, PTE_W)
    else if v < DEVSPACE / PGSIZE then 0
    else PteFor(v, PTE_W)
  }

  /** d maps the first i regions and nothing else. */
  ghost predicate SetUp(data: nat, n: Image, d: nat, i: nat)
    requires DataOk(data) && i <= 4
  {
    && IsDir(n, d)
    && forall v :: 0 <= v < VPAGES ==>
         Entry(n.frames, d, v) == (if USERPAGES <= v < Bound(data, i) then KernelEntry(data, v) else 0)
  }

  /** The bits of a kernel page's entry. */
  lemma KernelBits(data: nat, v: nat)
    requires DataOk(data) && USERPAGES <= v < VPAGES
    ensures var w := KernelEntry(data, v);
      && w / PTE_U % 2 == 0
      && (Present(w) <==> v < (KERNBASE + PHYSTOP) / PGSIZE || v >= DEVSPACE / PGSIZE)
      && (v < (KERNBASE + PHYSTOP) / PGSIZE ==> Frame(w) == v - USERPAGES)
      && (v >= DEVSPACE / PGSIZE ==> Frame(w) == v)
      && (Present(w) ==> (w / PTE_W % 2 == 1 <==> !(KERNLINK / PGSIZE <= v < data / PGSIZE)))
  {
    LowBits(KernelEntry(data, v));
  }

  /** What the processor makes of the kernel's regions: nowhere is the user let in; the kernel's text can
      be read, and all other memory up to PHYSTOP and the devices read and written. */
  lemma SetUpMmu(data: nat, n: Image, d: nat, a: Uint)
    requires DataOk(data) && Good(n) && SetUp(data, n, d, 4) && a >= KERNBASE
    ensures Mmu(n.frames, d, a) ==
      if a < KERNBASE + PHYSTOP then Page(a / PGSIZE - USERPAGES, !(KERNLINK <= a < data), false)
      else if a < DEVSPACE then NoPage
      else Page(a / PGSIZE, true, false)
  {
    var v := a / PGSIZE;
    KernelBits(data, v);
    Aligned(a, KERNBASE + PHYSTOP);
    Aligned(a, DEVSPACE);
    Aligned(a, KERNLINK);
    Aligned(a, data);
    hide KernelEntry, Mmu, Entry, Good, Frame, Present;
    MmuIs(n, d, a);
  }

  lemma Aligned(a: nat, x: nat)
    requires x % PGSIZE == 0
    ensures a < x <==> a / PGSIZE < x / PGSIZE
  {}

  lemma SetUpClosed(data: nat, n: Image, d: nat)
    requires DataOk(data) && Good(n) && SetUp(data, n, d, 4)
    ensures KernelClosed(n, d)
  {
    forall a: Uint | a >= KERNBASE ensures !UserIn(n, d, a) { SetUpMmu(data, n, d, a); }
  }

  lemma SetUpMeans(data: nat, n: Image, d: nat, i: nat)
    requires DataOk(data) && i < 4 && SetUp(data, n, d, i)
    ensures IsDir(n, d) && forall v :: Bound(data, i) <= v < VPAGES ==> Entry(n.frames, d, v) == 0
  {}

  lemma RegionPages(data: nat, i: nat)
    requires DataOk(data) && i < 4
    ensures var r := Kmap(data, i); var size := (r.end - r.start) % UINT_LIMIT;
      && 0 < size && r.virt + size <= UINT_LIMIT && r.start % PGSIZE == 0 && r.perm < PGSIZE
      && r.virt / PGSIZE >= Bound(data, i) && EndPage(r.virt, size) == Bound(data, i + 1)
      && r.start / PGSIZE + (EndPage(r.virt, size) - r.virt / PGSIZE) <= VPAGES
      && (forall v :: Bound(data, i) <= v < r.virt / PGSIZE ==> KernelEntry(data, v) == 0)
      && (forall v :: r.virt / PGSIZE <= v < Bound(data, i + 1) ==>
          KernelEntry(data, v) == PteFor(r.start / PGSIZE + (v - r.virt / PGSIZE), r.perm))
  {}

  /** What mappages promises for region i. */
  ghost predicate RegionMapped(data: nat, m: Image, n: Image, d: nat, i: nat)
    requires DataOk(data) && i < 4
  {
    var r := Kmap(data, i);
    var size := (r.end - r.start) % UINT_LIMIT;
    && size > 0 && r.start / PGSIZE + (EndPage(r.virt, size) - r.virt / PGSIZE) <= VPAGES && r.perm < PGSIZE
    && KernelMapped(m, n, d, r.virt / PGSIZE, EndPage(r.virt, size), r.start / PGSIZE, r.perm)
  }

  lemma SetUpStep(data: nat, m: Image, n: Image, d: nat, i: nat)
    requires DataOk(data) && i < 4 && SetUp(data, m, d, i)
    requires RegionMapped(data, m, n, d, i)
    ensures SetUp(data, n, d, i + 1)
  {
    RegionPages(data, i);
    hide Grew, Good, KernelEntry, Bound, Kmap, PteFor, Entry;
    var lo, hi := Kmap(data, i).virt / PGSIZE, Bound(data, i + 1);
    forall v | 0 <= v < VPAGES
      ensures Entry(n.frames, d, v) == if USERPAGES <= v < Bound(data, i + 1) then KernelEntry(data, v) else 0
    {
      if !(lo <= v < hi) { assert Entry(n.frames, d, v) == Entry(m.frames, d, v); }
    }
  }

  // ----- what a new directory costs -----

  /** The entries of a directory that the kernel's regions are under. */
  function KernelTables(): (s: set<nat>) {
    Spans(USERPAGES, (KERNBASE + PHYSTOP) / PGSIZE) + Spans(DEVSPACE / PGSIZE, VPAGES)
  }

  /** Those of the first i regions. */
  function RegionTables(data: nat, i: nat): (s: set<nat>)
    requires DataOk(data) && i <= 4
  {
    if i == 4 then KernelTables() else Spans(USERPAGES, Bound(data, i))
  }

  lemma SpansMeet(lo: nat, v: nat, hi: nat)
    requires lo <= v <= hi
    ensures Spans(lo, hi) == Spans(lo, v) + Spans(v, hi)
  {}

  lemma RegionSpan(data: nat, i: nat)
    requires DataOk(data) && i < 4
    ensures RegionTables(data, i) + Spans(Kmap(data, i).virt / PGSIZE, Bound(data, i + 1)) == RegionTables(data, i + 1)
    ensures RegionTables(data, i + 1) <= KernelTables()
  {
    if i < 3 {
      var lo, v, hi := USERPAGES, Bound(data, i), Bound(data, i + 1);
      SpansMeet(lo, v, hi);
      SpansMeet(lo, hi, (KERNBASE + PHYSTOP) / PGSIZE);
    }
  }

  /** The pages for a directory with the kernel's regions and k user pages. */
  function PagesNeeded(k: nat): (n: nat) {
    1 + k + |KernelTables() + Spans(0, k)|
  }

  function Interval(a: nat, b: nat): (s: set<nat>) {
    set p: nat | a <= p < b && Within(a, b, p)
  }

  predicate Within(a: nat, b: nat, p: nat) { a <= p < b }

  lemma {:induction false} IntervalSize(a: nat, b: nat)
    requires a <= b
    ensures |Interval(a, b)| == b - a
    decreases b - a
  {
    if a < b {
      var next := a + 1;
      IntervalSize(next, b);
      assert Interval(a, b) == {a} + Interval(next, b);
    } else {
      assert Interval(a, b) == {};
    }
  }

  lemma SpansInterval(lo: nat, hi: nat)
    requires lo < hi
    ensures Spans(lo, hi) == Interval(lo / NPTENTRIES, (hi - 1) / NPTENTRIES + 1)
  {
    forall p | lo / NPTENTRIES <= p < (hi - 1) / NPTENTRIES + 1 ensures p in Spans(lo, hi) {
      var v := if p == lo / NPTENTRIES then lo else p * NPTENTRIES;
      assert lo <= v < hi && v / NPTENTRIES == p;
    }
  }

  lemma Apart(a: set<nat>, b: set<nat>)
    requires a !! b
    ensures |a + b| == |a| + |b|
  {}

  lemma KernelTablesMeans()
    ensures |KernelTables()| == 56 + 8
    ensures forall p :: p in KernelTables() ==> p >= USERPAGES / NPTENTRIES
  {
    SpansInterval(USERPAGES, (KERNBASE + PHYSTOP) / PGSIZE);
    SpansInterval(DEVSPACE / PGSIZE, VPAGES);
    IntervalSize(512, 568);
    IntervalSize(1016, 1024);
    assert KernelTables() == Interval(512, 568) + Interval(1016, 1024);
    Apart(Interval(512, 568), Interval(1016, 1024));
  }

  /** The directory, 56 tables for the memory up to PHYSTOP, 8 for the devices, the user pages, and a table
      for every 4 MB of them. */
  lemma PagesNeededMeans(k: nat)
    requires k <= USERPAGES
    ensures PagesNeeded(k) == 1 + 56 + 8 + k + (k + NPTENTRIES - 1) / NPTENTRIES
  {
    KernelTablesMeans();
    var c := Interval(0, (k + NPTENTRIES - 1) / NPTENTRIES);
    IntervalSize(0, (k + NPTENTRIES - 1) / NPTENTRIES);
    if k > 0 { SpansInterval(0, k); } else { assert Spans(0, k) == {} == c; }
    assert Spans(0, k) == c;
    hide KernelTables, Spans;
    Apart(KernelTables(), c);
  }

  lemma NeededMonotone(j: nat, k: nat)
    requires j <= k
    ensures PagesNeeded(j) <= PagesNeeded(k)
  {
    SpansMeet(0, j, k);
    SubsetSize(KernelTables() + Spans(0, j), KernelTables() + Spans(0, k));
  }

  lemma NeedSome(k: nat)
    ensures PagesNeeded(k) > 0
  {}

  // ----- freeing a directory -----

  predicate FreedAt(m: Image, n: Image, d: nat, f: nat)
    requires f < |m.owner| == |n.owner| == |m.frames| == |n.frames|
  {
    if f == d || Of(m.owner[f], d) then n.owner[f].Free?
    else n.owner[f] == m.owner[f] && (m.owner[f].Free? || n.frames[f] == m.frames[f])
  }

  /** d and everything of d is free; all else is as it was. */
  ghost predicate Freed(m: Image, n: Image, d: nat) {
    && |m.owner| == |n.owner| == |m.frames| == |n.frames|
    && forall f :: 0 <= f < |m.owner| ==> FreedAt(m, n, d, f)
  }

  /** The owners when d is no longer used as a directory: d and its tables are held. */
  function WithoutDir(owner: seq<Owner>, d: nat): (r: seq<Owner>) {
    seq(|owner|, f requires 0 <= f < |owner| =>
      if f == d || (owner[f].Table? && owner[f].d == d) then Held else owner[f])
  }

  /** The tables of entries below i have been freed; d and its other tables are held. */
  predicate TableFreedAt(m: Image, x: Image, n: Image, d: nat, i: nat, f: nat)
    requires f < |x.owner| == |m.owner| == |n.owner| == |m.frames| == |n.frames| == |x.frames|
  {
    if f == d then n.owner[f].Held? && n.frames[f] == x.frames[f]
    else if x.owner[f].Table? && x.owner[f].d == d then
      if x.owner[f].p < i then n.owner[f].Free? else n.owner[f].Held?
    else n.owner[f] == x.owner[f] && n.frames[f] == x.frames[f]
  }

  ghost predicate TablesFreed(m: Image, x: Image, n: Image, d: nat, i: nat) {
    && Good(m) && Good(x) && IsDir(x, d) && Shrunk(m, x, d, 0, USERPAGES) && OnlyHeld(x, -1)
    && |n.owner| == |x.owner| == |m.owner| == |m.frames| == |n.frames| == |x.frames|
    && forall f :: 0 <= f < |x.owner| ==> TableFreedAt(m, x, n, d, i, f)
  }

  /** Without user pages, a directory and its tables can be dropped. */
  lemma DropKeeps(m: Image, x: Image, d: nat)
    requires Good(m) && Good(x) && IsDir(x, d) && Shrunk(m, x, d, 0, USERPAGES) && OnlyHeld(x, -1)
    ensures var n := Image(x.frames, x.free, WithoutDir(x.owner, d)); Good(n) && TablesFreed(m, x, n, d, 0)
  {
    var n := Image(x.frames, x.free, WithoutDir(x.owner, d));
    FreeKeeps(x, n);
    hide FreeOk;
    forall f | 0 <= f < |x.owner| ensures !(x.owner[f].User? && x.owner[f].d == d) {
      assert OwnerOk(x, f);
    }
    forall e, p | IsDir(n, e) && 0 <= p < NPTENTRIES ensures PdeOk(n, e, p) { assert IsDir(x, e) && PdeOk(x, e, p); }
    forall e, v | IsDir(n, e) && 0 <= v < USERPAGES ensures PteOk(n, e, v) { assert IsDir(x, e) && PteOk(x, e, v); }
    forall f | 0 <= f < |n.owner| ensures OwnerOk(n, f) { assert OwnerOk(x, f); }
    forall f | 0 <= f < |x.owner| ensures TableFreedAt(m, x, n, d, 0, f) {}
  }

  lemma TablesMean(m: Image, x: Image, n: Image, d: nat, i: nat)
    requires TablesFreed(m, x, n, d, i) && i < NPTENTRIES
    ensures d < |n.frames| == |n.owner| && n.frames[d] == x.frames[d]
    ensures Present(n.frames[d][i]) ==>
      Frame(n.frames[d][i]) < |n.owner| && n.owner[Frame(n.frames[d][i])].Held? && Frame(n.frames[d][i]) != d
  {
    assert TableFreedAt(m, x, n, d, i, d) && PdeOk(x, d, i);
    var f := Frame(x.frames[d][i]);
    if Present(x.frames[d][i]) { assert TableFreedAt(m, x, n, d, i, f); }
  }

  lemma TablesStep(m: Image, x: Image, n: Image, w: Image, d: nat, i: nat)
    requires TablesFreed(m, x, n, d, i) && i < NPTENTRIES && d < |n.frames|
    requires Present(n.frames[d][i]) ==>
      Frame(n.frames[d][i]) < |n.owner| && Frame(n.frames[d][i]) < |n.frames|
        && w == GiveImage(n, Frame(n.frames[d][i]))
    requires !Present(n.frames[d][i]) ==> w == n
    ensures TablesFreed(m, x, w, d, i + 1)
  {
    TablesMean(m, x, n, d, i);
    var next := i + 1;
    assert PdeOk(x, d, i);
    forall f | 0 <= f < |x.owner| ensures TableFreedAt(m, x, w, d, next, f) {
      assert TableFreedAt(m, x, n, d, i, f) && OwnerOk(x, f);
    }
  }

  lemma TablesDone(m: Image, x: Image, n: Image, d: nat)
    requires TablesFreed(m, x, n, d, NPTENTRIES)
    ensures d < |n.owner| && n.owner[d].Held?
  {
    assert TableFreedAt(m, x, n, d, NPTENTRIES, d);
  }

  lemma FreedDone(m: Image, x: Image, n: Image, w: Image, d: nat)
    requires TablesFreed(m, x, n, d, NPTENTRIES) && d < |n.owner| && d < |n.frames| && w == GiveImage(n, d)
    ensures Freed(m, w, d) && OnlyHeld(w, -1)
  {
    forall f | 0 <= f < |m.owner| ensures FreedAt(m, w, d, f) && !w.owner[f].Held? {
      assert TableFreedAt(m, x, n, d, NPTENTRIES, f) && ShrunkAt(m, x, d, 0, USERPAGES, f) && OwnerOk(m, f)
        && OwnerOk(x, f);
    }
  }

  // ----- a new directory beside the old ones -----

  /** One page when directory e has come into being: what was in use is untouched, what was free is free,
      held, e itself or of e. */
  predicate BesideAt(m: Image, n: Image, e: nat, f: nat)
    requires f < |m.owner| == |n.owner| == |m.frames| == |n.frames|
  {
    if m.owner[f].Free? then n.owner[f].Free? || n.owner[f].Held? || (f == e && n.owner[f].Dir?) || Of(n.owner[f], e)
    else f != e && n.owner[f] == m.owner[f] && n.frames[f] == m.frames[f]
  }

  ghost predicate Beside(m: Image, n: Image, e: nat) {
    && |m.owner| == |n.owner| == |m.frames| == |n.frames| && IsDir(n, e) && m.owner[e].Free?
    && forall f :: 0 <= f < |m.owner| ==> BesideAt(m, n, e, f)
  }

  lemma BesideMeans(m: Image, n: Image, e: nat)
    requires Beside(m, n, e)
    ensures IsDir(n, e)
  {}

  /** Nothing in use has changed, and every page that was free is free. */
  ghost predicate Restored(m: Image, n: Image) {
    && Good(n) && n.owner == m.owner && |n.frames| == |m.frames|
    && forall f :: 0 <= f < |m.owner| && f < |m.frames| && !m.owner[f].Free? ==> n.frames[f] == m.frames[f]
  }

  lemma RestoredNothing(m: Image)
    requires Good(m)
    ensures Restored(m, m)
  {}

  /** After a rollback as many pages are free as before, and the same ones. */
  lemma RestoredFree(m: Image, n: Image)
    requires Good(m) && Restored(m, n)
    ensures forall f: nat :: Times(m.free, f) == Times(n.free, f)
  {
    forall f: nat ensures Times(m.free, f) == Times(n.free, f) {
      OnceFree(m, f);
      OnceFree(n, f);
    }
  }

  lemma BesideGrew(m: Image, n: Image, w: Image, e: nat)
    requires Good(m) && OnlyHeld(m, -1) && Beside(m, n, e) && Grew(n, w, e)
    ensures Beside(m, w, e)
  {
    forall f | 0 <= f < |m.owner| ensures BesideAt(m, w, e, f) {
      assert BesideAt(m, n, e, f) && GrewAt(n, w, e, f) && OwnerOk(m, f);
    }
  }

  lemma BesideFreed(m: Image, n: Image, w: Image, e: nat)
    requires Good(m) && OnlyHeld(m, -1) && Beside(m, n, e) && OnlyHeld(n, -1) && Freed(n, w, e) && Good(w)
    ensures Restored(m, w)
  {
    forall f | 0 <= f < |m.owner|
      ensures w.owner[f] == m.owner[f] && (!m.owner[f].Free? ==> w.frames[f] == m.frames[f])
    {
      assert BesideAt(m, n, e, f) && FreedAt(n, w, e, f) && OwnerOk(m, f);
    }
  }

  /** The old directories' entries are untouched. */
  lemma BesideEntry(m: Image, n: Image, e: nat, d: nat, v: nat)
    requires Good(m) && Beside(m, n, e) && IsDir(m, d) && v < VPAGES
    ensures IsDir(n, d) && d != e && Entry(n.frames, d, v) == Entry(m.frames, d, v)
    ensures v < USERPAGES && Present(Entry(m.frames, d, v)) ==>
      Frame(Entry(m.frames, d, v)) < |n.frames| == |m.frames|
        && n.frames[Frame(Entry(m.frames, d, v))] == m.frames[Frame(Entry(m.frames, d, v))]
  {
    assert BesideAt(m, n, e, d) && PdeOk(m, d, v / NPTENTRIES);
    var pde := m.frames[d][v / NPTENTRIES];
    if Present(pde) { assert BesideAt(m, n, e, Frame(pde)); }
    if v < USERPAGES && Present(Entry(m.frames, d, v)) {
      assert PteOk(m, d, v);
      assert BesideAt(m, n, e, Frame(Entry(m.frames, d, v)));
    }
  }

  /** A page taken from the free list, zeroed and made a directory. */
  function NewDir(m: Image): (n: Image)
    requires |m.free| > 0 && m.free[0] < |m.owner| && m.free[0] < |m.frames|
  {
    Image(m.frames[m.free[0] := ZeroPage()], m.free[1..], m.owner[m.free[0] := Dir])
  }

  lemma NewDirBeside(data: nat, m: Image)
    requires Good(m) && OnlyHeld(m, -1) && |m.free| > 0 && DataOk(data)
    ensures 0 < m.free[0] < |m.owner| == |m.frames|
    ensures Good(NewDir(m)) && OnlyHeld(NewDir(m), -1) && Beside(m, NewDir(m), m.free[0])
    ensures SetUp(data, NewDir(m), m.free[0], 0)
  {
    TakeKeeps(m);
    var t, d := TakeImage(m), m.free[0];
    WriteKeeps(t, d, ZeroPage());
    var z := Image(t.frames[d := ZeroPage()], t.free, t.owner);
    NewDirKeeps(z, d);
    assert z.owner[d := Dir] == m.owner[d := Dir];
    forall f | 0 <= f < |m.owner| ensures BesideAt(m, NewDir(m), d, f) {}
  }

  // ----- the loop of setupkvm -----

  /** The same with k user pages. */
  ghost predicate CopyPaid(m: Image, n: Image, e: nat, k: nat) {
    e < |n.frames| && Tables(n, e) == KernelTables() + Spans(0, k) && |m.free| == |n.free| + PagesNeeded(k)
  }

  /** With i regions mapped, the pages that were free have gone into d and its tables. */
  ghost predicate Funded(data: nat, m: Image, n: Image, d: nat, i: nat)
    requires DataOk(data) && i <= 4
  {
    d < |n.frames| && Tables(n, d) == RegionTables(data, i) && |m.free| == |n.free| + 1 + |RegionTables(data, i)|
  }

  lemma FundedStart(data: nat, m: Image)
    requires DataOk(data) && Good(m) && |m.free| > 0
    ensures m.free[0] < |m.owner| && Funded(data, m, NewDir(m), m.free[0], 0)
  {
    assert Tables(NewDir(m), m.free[0]) == {};
    assert Spans(USERPAGES, USERPAGES) == {};
  }

  lemma FundedStep(data: nat, m: Image, n: Image, w: Image, d: nat, i: nat)
    requires DataOk(data) && i < 4 && Funded(data, m, n, d, i)
    requires Paid(n, w, d, Kmap(data, i).virt / PGSIZE, Bound(data, i + 1), 0)
    ensures Funded(data, m, w, d, i + 1)
  {
    RegionSpan(data, i);
    hide RegionTables, Spans, Tables;
  }

  lemma FundedFew(data: nat, m: Image, n: Image, d: nat, i: nat)
    requires DataOk(data) && i < 4 && Funded(data, m, n, d, i)
    requires TooFew(n, d, Kmap(data, i).virt / PGSIZE, Bound(data, i + 1), 0)
    ensures |m.free| < PagesNeeded(0)
  {
    RegionSpan(data, i);
    SubsetSize(RegionTables(data, i + 1), KernelTables());
    assert Spans(0, 0) == {};
    assert KernelTables() + Spans(0, 0) == KernelTables();
    hide RegionTables, Spans, Tables, KernelTables;
  }

  lemma FundedEnough(data: nat, m: Image, n: Image, d: nat)
    requires DataOk(data) && Funded(data, m, n, d, 4)
    ensures |m.free| >= PagesNeeded(0) && CopyPaid(m, n, d, 0)
  {
    assert Spans(0, 0) == {};
    assert KernelTables() + Spans(0, 0) == KernelTables();
  }

  lemma MappedRegion(data: nat, m: Image, n: Image, w: Image, d: nat, i: nat)
    requires DataOk(data) && i < 4 && SetUp(data, n, d, i) && Good(m) && OnlyHeld(m, -1) && Beside(m, n, d)
    requires OnlyHeld(n, -1) && Funded(data, m, n, d, i)
    requires RegionMapped(data, n, w, d, i)
    ensures Good(w) && OnlyHeld(w, -1) && Beside(m, w, d) && SetUp(data, w, d, i + 1) && Funded(data, m, w, d, i + 1)
  {
    SetUpStep(data, n, w, d, i);
    RegionPages(data, i);
    FundedStep(data, m, n, w, d, i);
    BesideGrew(m, n, w, d);
  }

  // ----- copying -----

  lemma CopyPaidStep(m: Image, n: Image, w: Image, e: nat, v: nat)
    requires CopyPaid(m, n, e, v) && Paid(n, w, e, v, v + 1, 1)
    ensures CopyPaid(m, w, e, v + 1)
  {
    SpansMeet(0, v, v + 1);
    hide Spans, Tables, KernelTables;
    assert KernelTables() + Spans(0, v) + Spans(v, v + 1) == KernelTables() + Spans(0, v + 1);
  }

  lemma CopyTooFew(m: Image, n: Image, e: nat, v: nat)
    requires CopyPaid(m, n, e, v) && TooFew(n, e, v, v + 1, 1)
    ensures |m.free| < PagesNeeded(v + 1)
  {
    SpansMeet(0, v, v + 1);
    hide Spans, Tables, KernelTables;
    assert KernelTables() + Spans(0, v) + Spans(v, v + 1) == KernelTables() + Spans(0, v + 1);
  }

  /** Page v of the new directory e holds the same bytes under the same flags as page v of d, on a page of
      its own. */
  ghost predicate PageCopied(m: Image, n: Image, d: nat, e: nat, v: nat) {
    && d < |m.frames| && e < |n.frames| && v < VPAGES
    && var wd := Entry(m.frames, d, v); var we := Entry(n.frames, e, v);
    && Present(we) && Flags(we) == Flags(wd) && Frame(we) < |n.frames| == |n.owner| && Frame(wd) < |m.frames|
    && n.frames[Frame(we)] == m.frames[Frame(wd)] && n.owner[Frame(we)] == User(e, v)
  }

  /** Pages below k have been copied from d to e; beyond, e maps the kernel only. */
  ghost predicate Copying(data: nat, m: Image, n: Image, d: nat, e: nat, k: nat)
    requires DataOk(data)
  {
    && Good(m) && OnlyHeld(m, -1) && IsDir(m, d)
    && Good(n) && OnlyHeld(n, -1) && Beside(m, n, e) && k <= USERPAGES && CopyPaid(m, n, e, k)
    && (forall v :: 0 <= v < k ==> PageCopied(m, n, d, e, v))
    && (forall v :: k <= v < VPAGES ==> Entry(n.frames, e, v) == if v < USERPAGES then 0 else KernelEntry(data, v))
  }

  lemma CopyStart(data: nat, m: Image, n: Image, d: nat, e: nat)
    requires DataOk(data) && Good(m) && OnlyHeld(m, -1) && IsDir(m, d)
    requires Good(n) && OnlyHeld(n, -1) && Beside(m, n, e) && SetUp(data, n, e, 4) && Funded(data, m, n, e, 4)
    ensures Copying(data, m, n, d, e, 0)
  {
    FundedEnough(data, m, n, e);
  }

  lemma CopyingMeans(data: nat, m: Image, n: Image, d: nat, e: nat, v: nat)
    requires DataOk(data) && Copying(data, m, n, d, e, v) && v < USERPAGES && Present(Entry(m.frames, d, v))
    ensures Good(n) && OnlyHeld(n, -1) && IsDir(n, e) && IsDir(n, d) && !Present(Entry(n.frames, e, v))
    ensures CopyFailed(m, n, e)
    ensures Entry(n.frames, d, v) == Entry(m.frames, d, v) && Frame(Entry(m.frames, d, v)) < |m.frames| == |n.frames|
    ensures n.frames[Frame(Entry(m.frames, d, v))] == m.frames[Frame(Entry(m.frames, d, v))]
    ensures Present(n.frames[d][v / NPTENTRIES]) && Frame(n.frames[d][v / NPTENTRIES]) < |n.frames|
    ensures n.frames[Frame(n.frames[d][v / NPTENTRIES])][v % NPTENTRIES] == Entry(m.frames, d, v)
  {
    BesideEntry(m, n, e, d, v);
    assert PdeOk(m, d, v / NPTENTRIES) && PteOk(m, d, v);
    assert Entry(n.frames, d, v) == Entry(m.frames, d, v);
  }

  /** A page for the copy has been taken and filled. */
  ghost predicate Filled(n: Image, x: Image, e: nat, mem: nat, page: Page) {
    && Good(x) && Grew(n, x, e) && SameEntries(n, x, e, 0, 0)
    && 0 < mem < |x.owner| && x.owner[mem].Held? && x.frames[mem] == page && OnlyHeld(x, mem) && OneTaken(n, x, e)
  }

  lemma TakenFilled(n: Image, e: nat, page: Page)
    requires Good(n) && IsDir(n, e) && |n.free| > 0 && OnlyHeld(n, -1)
    ensures n.free[0] < |n.owner|
    ensures Filled(n, Image(n.frames[n.free[0] := page], n.free[1..], n.owner[n.free[0] := Held]), e, n.free[0], page)
  {
    TakeKeeps(n);
    TakeGrew(n, e);
    var t, f := TakeImage(n), n.free[0];
    WriteKeeps(t, f, page);
    var x := Image(t.frames[f := page], t.free, t.owner);
    forall g | 0 <= g < |n.owner| ensures GrewAt(n, x, e, g) { assert GrewAt(n, t, e, g); }
    assert IsDir(t, e);
    forall u | 0 <= u < VPAGES ensures Entry(x.frames, e, u) == Entry(n.frames, e, u) {}
  }

  lemma FilledMeans(n: Image, x: Image, e: nat, mem: nat, page: Page, v: nat)
    requires Filled(n, x, e, mem, page) && v < VPAGES
    ensures Good(x) && IsDir(x, e) && Entry(x.frames, e, v) == Entry(n.frames, e, v)
    ensures mem < |x.owner| == |x.frames| <= VPAGES && x.owner[mem].Held?
  {}

  /** From the image before a page is taken to that after it is mapped. */
  lemma CopyOne(m: Image, n: Image, x: Image, w: Image, d: nat, e: nat, v: nat, mem: nat, flags: nat)
    requires v < USERPAGES && mem < VPAGES && flags < PGSIZE && d < |m.frames|
    requires Present(Entry(m.frames, d, v)) && flags == Flags(Entry(m.frames, d, v))
    requires Frame(Entry(m.frames, d, v)) < |m.frames|
    requires Filled(n, x, e, mem, m.frames[Frame(Entry(m.frames, d, v))])
    requires UserMapped(x, w, e, v, PteFor(mem, flags))
    ensures Good(w) && OnlyHeld(w, -1) && Grew(n, w, e) && SameEntries(n, w, e, v, v + 1)
    ensures PageCopied(m, w, d, e, v) && Paid(n, w, e, v, v + 1, 1)
  {
    assert flags % 2 == 1;
    GrewTransitive(n, x, w, e);
    TakenPaid(n, x, w, e, v);
    hide Paid;
  }

  lemma CopiedStays(m: Image, n: Image, w: Image, d: nat, e: nat, u: nat)
    requires PageCopied(m, n, d, e, u) && Grew(n, w, e) && Entry(w.frames, e, u) == Entry(n.frames, e, u)
    ensures PageCopied(m, w, d, e, u)
  {
    assert GrewAt(n, w, e, Frame(Entry(n.frames, e, u)));
  }

  lemma CopyExtend(data: nat, m: Image, n: Image, w: Image, d: nat, e: nat, v: nat)
    requires DataOk(data) && Copying(data, m, n, d, e, v) && v < USERPAGES
    requires Good(w) && OnlyHeld(w, -1) && Grew(n, w, e) && SameEntries(n, w, e, v, v + 1)
    requires Beside(m, w, e) && CopyPaid(m, w, e, v + 1) && PageCopied(m, w, d, e, v)
    ensures Copying(data, m, w, d, e, v + 1)
  {
    hide Good, OnlyHeld, Beside, CopyPaid, PageCopied, KernelEntry, Entry, Grew;
    var next := v + 1;
    forall u | 0 <= u < next ensures PageCopied(m, w, d, e, u) {
      if u < v { CopiedStays(m, n, w, d, e, u); }
    }
  }

  lemma CopyStep(data: nat, m: Image, n: Image, x: Image, w: Image, d: nat, e: nat, v: nat, mem: nat, flags: nat)
    requires DataOk(data) && Copying(data, m, n, d, e, v) && v < USERPAGES && mem < VPAGES && flags < PGSIZE
    requires Present(Entry(m.frames, d, v)) && flags == Flags(Entry(m.frames, d, v))
    requires Frame(Entry(m.frames, d, v)) < |m.frames|
    requires Filled(n, x, e, mem, m.frames[Frame(Entry(m.frames, d, v))])
    requires UserMapped(x, w, e, v, PteFor(mem, flags))
    ensures Copying(data, m, w, d, e, v + 1)
  {
    CopyOne(m, n, x, w, d, e, v, mem, flags);
    BesideGrew(m, n, w, e);
    CopyPaidStep(m, n, w, e, v);
    hide Filled, UserMapped, Paid;
    CopyExtend(data, m, n, w, d, e, v);
  }

  /** The copy failed: with everything held given back, only e has to be freed. */
  ghost predicate CopyFailed(m: Image, w: Image, e: nat) {
    Good(m) && OnlyHeld(m, -1) && Good(w) && OnlyHeld(w, -1) && Beside(m, w, e)
  }

  lemma CopyFailedMeans(m: Image, w: Image, e: nat)
    requires CopyFailed(m, w, e)
    ensures Good(m) && OnlyHeld(m, -1) && Good(w) && OnlyHeld(w, -1) && Beside(m, w, e) && IsDir(w, e)
  {}

  lemma FilledFails(data: nat, m: Image, n: Image, x: Image, d: nat, e: nat, v: nat, mem: nat, page: Page)
    requires DataOk(data) && Copying(data, m, n, d, e, v) && Filled(n, x, e, mem, page)
    ensures mem < |x.owner| == |x.frames| && x.owner[mem].Held? && CopyFailed(m, GiveImage(x, mem), e)
  {
    BesideGrew(m, n, x, e);
    GiveKeeps(x, mem);
    var w := GiveImage(x, mem);
    forall f | 0 <= f < |m.owner| ensures BesideAt(m, w, e, f) { assert BesideAt(m, x, e, f); }
  }

  lemma FilledFew(data: nat, m: Image, n: Image, x: Image, d: nat, e: nat, v: nat, mem: nat, page: Page)
    requires DataOk(data) && Copying(data, m, n, d, e, v) && Filled(n, x, e, mem, page) && TooFew(x, e, v, v + 1, 0)
    ensures |m.free| < PagesNeeded(v + 1)
  {
    TakenFew(n, x, e, v);
    CopyTooFew(m, n, e, v);
  }

  lemma CopyNoneFree(data: nat, m: Image, n: Image, d: nat, e: nat, v: nat)
    requires DataOk(data) && Copying(data, m, n, d, e, v) && |n.free| == 0
    ensures |m.free| < PagesNeeded(v + 1)
  {
    NoneFree(n, e, v);
    CopyTooFew(m, n, e, v);
  }

  lemma CopyEnough(data: nat, m: Image, n: Image, d: nat, e: nat, k: nat)
    requires DataOk(data) && Copying(data, m, n, d, e, k)
    ensures |m.free| >= PagesNeeded(k)
  {}

  /** At every address that has been copied the processor finds, in the child, another page with the same bytes
      and lets it do there what it lets the parent do. */
  lemma CopyMmu(data: nat, m: Image, n: Image, d: nat, e: nat, k: nat, a: Uint)
    requires DataOk(data) && Copying(data, m, n, d, e, k) && a / PGSIZE < k
    ensures IsDir(m, d) && IsDir(n, e) && Mmu(n.frames, e, a).Page? && Mmu(m.frames, d, a).Page?
    ensures var x, y := Mmu(m.frames, d, a), Mmu(n.frames, e, a);
      && y.write == x.write && y.user == x.user && x.frame < |m.frames| && y.frame < |n.frames|
      && n.frames[y.frame] == m.frames[x.frame]
  {
    assert PageCopied(m, n, d, e, a / PGSIZE);
    SameBits(Entry(m.frames, d, a / PGSIZE), Entry(n.frames, e, a / PGSIZE));
    MmuIs(m, d, a);
    MmuIs(n, e, a);
  }

  lemma SameBits(w: Word, u: Word)
    requires Flags(w) == Flags(u)
    ensures w % 2 == u % 2 && w / 2 % 2 == u / 2 % 2 && w / 4 % 2 == u / 4 % 2
  {
    LowBits(w);
    LowBits(u);
    hide Flags;
  }

  /** No page of the copy is a page that was in use before, so none is the original's. */
  lemma CopyApart(data: nat, m: Image, n: Image, d: nat, e: nat, k: nat, v: nat, f: nat)
    requires DataOk(data) && Copying(data, m, n, d, e, k) && v < k && f < |m.owner| && !m.owner[f].Free?
    ensures Frame(Entry(n.frames, e, v)) != f && n.owner[f] == m.owner[f] && n.frames[f] == m.frames[f]
  {
    assert PageCopied(m, n, d, e, v) && BesideAt(m, n, e, f) && OwnerOk(m, f);
  }
}
