/** Address spaces (vm.c, kalloc.c): walking, mapping, growing, shrinking, copying and freeing page tables,
    with every page accounted for on every path, the out-of-memory ones included. */
module AddressSpace {
  import opened KernelMemory
  import opened UserMemory
  import opened Mapping
  import opened Resizing
  import opened Duplication

  /** The processor finds a page at address a and lets the user read and write there. */
  predicate Reachable(frames: seq<Page>, d: nat, a: Uint) {
    d < |frames| && Mmu(frames, d, a).Page? && Mmu(frames, d, a).write && Mmu(frames, d, a).user
  }

  /** At address a both directories have pages with the same bytes, on which the same may be done. */
  predicate SameThere(frames: seq<Page>, d: nat, frames': seq<Page>, e: nat, a: Uint) {
    && d < |frames| && e < |frames'| && Mmu(frames, d, a).Page? && Mmu(frames', e, a).Page?
    && var x, y := Mmu(frames, d, a), Mmu(frames', e, a);
    && y.write == x.write && y.user == x.user && x.frame < |frames| && y.frame < |frames'|
    && frames'[y.frame] == frames[x.frame]
  }

  class Vm {
    const data: nat
    var frames: seq<Page>
    var freelist: Word          // kmem.freelist
    ghost var free: seq<nat>    // the pages that are found by following it
    ghost var owner: seq<Owner>

    ghost function Now(): Image
      reads this
    {
      Image(frames, free, owner)
    }

    /** kmem.freelist points to the first free page. */
    ghost predicate Linked()
      reads `freelist, `free
    {
      freelist == Head(free)
    }

    /** kalloc: 0 exactly if no page is free. */
    method Kalloc() returns (r: nat)
      requires Good(Now())
      requires Linked()
      modifies this`freelist, this`free, this`owner
      ensures Linked()
      ensures r == 0 <==> |old(free)| == 0
      ensures r == 0 ==> Now() == old(Now())
      ensures r != 0 ==>
        r == old(free)[0] && r < |old(owner)| && old(owner)[r].Free? && Good(Now()) && Now() == TakeImage(old(Now()))
      ensures r != 0 ==> frames == old(frames) && free == old(free)[1..] && owner == old(owner)[r := Held]
    {
      if freelist == 0 { return 0; }
      TakeKeeps(Now());
      PointsTo(free[0]);
      r := PageAtPointer(freelist);
      freelist := frames[r][0];
      free := free[1..];
      owner := owner[r := Held];
    }

    /** kfree of a page that is in nobody's use any more. */
    method Kfree(v: nat)
      requires Good(Now()) && v < |owner| && owner[v].Held?
      requires Linked()
      modifies this
      ensures Linked()
      ensures Good(Now()) && Now() == GiveImage(old(Now()), v)
      ensures frames == old(frames)[v := frames[v]] && free == [v] + old(free) && owner == old(owner)[v := Free]
      ensures frames[v][0] == if |old(free)| == 0 then 0 else 0x8000_0000 + 4096 * old(free)[0]
      ensures forall k :: 0 < k < 1024 ==> frames[v][k] == 0x0101_0101
    {
      GiveKeeps(Now(), v);
      frames := frames[v := Junk(freelist)];
      freelist := Pointer(v);
      free := [v] + free;
      owner := owner[v := Free];
    }

    /** freerange: the whole pages between the two addresses go to the free list. */
    method Freerange(vstart: nat, vend: nat)
      requires Good(Now()) && vstart <= vend && vend / PGSIZE <= |owner|
      requires forall f :: PagesFor(vstart) <= f < vend / PGSIZE ==> owner[f].Held?
      requires Linked()
      modifies this
      ensures Linked()
      ensures RangeFreed(old(Now()), Now(), PagesFor(vstart), vend / PGSIZE)
    {
      ghost var m, lo, hi := Now(), PagesFor(vstart), vend / PGSIZE;
      assert |m.owner| == |m.frames|;
      hide Good, Linked, PagesFor, RoundDown, PageAt;
      PageAtStart(vstart);
      var p: nat := RoundDown(vstart + PGSIZE - 1);
      ghost var k: nat := lo;
      PageAtEnd(p, k, vend);
      while p + PGSIZE <= vend
        invariant Linked()
        invariant PageAt(p, k) && lo <= k && (k <= hi || k == lo) && (p + PGSIZE <= vend <==> k < hi)
        invariant RangeFreed(m, Now(), lo, k)
        decreases vend - p
      {
        PageAtEnd(p, k, vend);
        assert m.owner[k].Held?;
        Kfree(p / PGSIZE);
        PageAtNext(p, k);
        p, k := p + PGSIZE, k + 1;
        PageAtEnd(p, k, vend);
      }
    }

    /** walkpgdir: the table that holds the entry of page v, made if `alloc` and there is none; -1 for a
        null pointer. */
    method Walkpgdir(d: nat, v: nat, alloc: bool) returns (t: int)
      requires Good(Now()) && IsDir(Now(), d) && v < VPAGES
      requires Linked()
      modifies this
      ensures Linked()
      ensures t == -1 <==> !Present(old(frames)[d][v / NPTENTRIES]) && (!alloc || |old(free)| == 0)
      ensures t == -1 || Present(old(frames)[d][v / NPTENTRIES]) ==> Now() == old(Now())
      ensures t != -1 ==> Good(Now()) && HasTable(Now(), d, v) && t == Frame(frames[d][v / NPTENTRIES])
      ensures t != -1 && !Present(old(frames)[d][v / NPTENTRIES]) ==>
        |old(free)| > 0 && old(free)[0] < |old(owner)| && Now() == WalkImage(old(Now()), d, v)
    {
      var pde := frames[d][v / NPTENTRIES];
      if Present(pde) {
        assert PdeOk(Now(), d, v / NPTENTRIES);
        return Frame(pde);
      }
      if !alloc { return -1; }
      ghost var m := Now();
      if |free| > 0 { WalkKeeps(m, d, v); }
      var pgtab := Kalloc();
      if pgtab == 0 { return -1; }
      MakePteMeans(pgtab, PTE_P + PTE_W + PTE_U);
      frames := frames[pgtab := ZeroPage()];
      frames := frames[d := frames[d][v / NPTENTRIES := MakePte(pgtab, PTE_P + PTE_W + PTE_U)]];
      owner := owner[pgtab := Table(d, v / NPTENTRIES)];
      assert Now() == WalkImage(m, d, v);
      return pgtab;
    }

    /** walkpgdir as mappages calls it. */
    method WalkForMap(d: nat, v: nat) returns (t: int)
      requires Good(Now()) && IsDir(Now(), d) && v < VPAGES
      requires Linked()
      modifies this
      ensures Linked()
      ensures t == -1 ==> Now() == old(Now()) && !Present(Entry(old(frames), d, v))
      ensures t == -1 ==> TooFew(old(Now()), d, v, v + 1, 0)
      ensures t != -1 ==> Walked(old(Now()), Now(), d, v) && t == Frame(frames[d][v / NPTENTRIES])
    {
      ghost var m := Now();
      if !Present(frames[d][v / NPTENTRIES]) && |free| > 0 { WalkedNew(m, d, v); }
      if Present(frames[d][v / NPTENTRIES]) { WalkedOld(m, d, v); } else { WalkPaid(m, d, v); }
      hide Good, Linked, Walked, Paid, TooFew;
      t := Walkpgdir(d, v, true);
    }

    /** One turn of the loop in mappages. */
    method MapPage(d: nat, v: nat, frame: nat, perm: nat) returns (r: MapResult)
      requires Good(Now()) && IsDir(Now(), d) && v < VPAGES && frame < VPAGES && perm < PGSIZE
      requires v < USERPAGES ==> frame < |owner| && owner[frame].Held?
      requires Linked()
      modifies this
      ensures Linked()
      ensures r.Remap? <==> Present(Entry(old(frames), d, v))
      ensures !r.Mapped? ==> Now() == old(Now())
      ensures r.NoMemory? ==> TooFew(old(Now()), d, v, v + 1, 0)
      ensures r.Mapped? && v < USERPAGES ==> UserMapped(old(Now()), Now(), d, v, PteFor(frame, perm))
      ensures r.Mapped? && v >= USERPAGES ==> KernelMapped(old(Now()), Now(), d, v, v + 1, frame, perm)
    {
      ghost var m := Now();
      var t := WalkForMap(d, v);
      if t == -1 { return NoMemory; }
      ghost var l := Now();
      WalkedMeans(m, l, d, v);
      hide Good, Linked, Grew, OnlyHeld, Walked, UserMapped, KernelMapped, Entry, Paid, TooFew;
      var pte := frames[t][v % NPTENTRIES];
      if Present(pte) { return Remap; }
      var w := PteFor(frame, perm);
      if v < USERPAGES { MapUser(m, l, d, v, w); } else { MapKernel(m, l, d, v, frame, perm); }
      frames := frames[t := frames[t][v % NPTENTRIES := w]];
      if v < USERPAGES { owner := owner[frame := User(d, v)]; }
      return Mapped;
    }

    /** The loop of mappages. */
    method MapUpTo(d: nat, first: Uint, last: Uint, pa: Uint, perm: nat, ghost lo: nat, ghost hi: nat, ghost pf: nat)
      returns (r: MapResult)
      requires Addresses(first, pa, last, lo, lo, hi, pf) && MapProgress(Now(), Now(), d, lo, lo, hi, pf, perm)
      requires Linked()
      modifies this
      ensures Linked()
      ensures MapOutcome(old(Now()), Now(), d, lo, hi, pf, perm, r)
    {
      ghost var m := Now();
      hide Good, Linked, Grew, OnlyHeld, UserMapped, SameEntries, KernelMapped, MapProgress, MapOutcome, Entry, Paid,
        TooFew, Addresses;
      var a: Uint, p: Uint := first, pa;
      ghost var k := lo;
      AddressesMean(a, p, last, lo, k, hi, pf);
      while true
        invariant Linked()
        invariant Addresses(a, p, last, lo, k, hi, pf)
        invariant lo <= k < hi <= VPAGES
        invariant MapProgress(m, Now(), d, lo, k, hi, pf, perm)
        decreases hi - k
      {
        ghost var n := Now();
        MapProgressMeans(m, n, d, lo, k, hi, pf, perm);
        AddressesMean(a, p, last, lo, k, hi, pf);
        r := MapPage(d, a / PGSIZE, p / PGSIZE, perm);
        MapProgressStep(m, n, Now(), d, lo, k, hi, pf, perm, r);
        if !r.Mapped? { return; }
        if a == last { return; }
        AddressesNext(a, p, last, lo, k, hi, pf);
        a, p := (a + PGSIZE) % UINT_LIMIT, (p + PGSIZE) % UINT_LIMIT;
        k := k + 1;
      }
      r := Mapped;
    }

    /** mappages for one user page that is held, or for a range of kernel pages, which may be the one that
        ends at the top of the address space. The panic "remap" is met exactly if a page is mapped. */
    method Mappages(d: nat, va: Uint, size: Uint, pa: Uint, perm: nat) returns (r: MapResult)
      requires Good(Now()) && IsDir(Now(), d) && 0 < size && va + size <= UINT_LIMIT && pa % PGSIZE == 0
      requires perm < PGSIZE
      requires pa / PGSIZE + (EndPage(va, size) - va / PGSIZE) <= VPAGES
      requires va / PGSIZE >= USERPAGES || (
        EndPage(va, size) == va / PGSIZE + 1 && pa / PGSIZE < |owner| && owner[pa / PGSIZE].Held?)
      requires forall v :: va / PGSIZE <= v < EndPage(va, size) && v < VPAGES ==> !Present(Entry(frames, d, v))
      requires Linked()
      modifies this
      ensures Linked()
      ensures MapOutcome(old(Now()), Now(), d, va / PGSIZE, EndPage(va, size), pa / PGSIZE, perm, r)
    {
      ghost var lo, hi, pf := va / PGSIZE, EndPage(va, size), pa / PGSIZE;
      MapStart(Now(), d, lo, hi, pf, perm);
      AddressesStart(va, size, pa);
      hide Good, Linked, Addresses, MapProgress, MapOutcome, Entry, RoundDown, EndPage;
      r := MapUpTo(d, RoundDown(va), RoundDown((va + size - 1) % UINT_LIMIT), pa, perm, lo, hi, pf);
    }

    /** mappages for the page at virtual page v, as allocuvm and copyuvm call it. */
    method MapUserPage(d: nat, v: nat, mem: nat, perm: nat) returns (ok: bool)
      requires Good(Now()) && IsDir(Now(), d) && v < USERPAGES && !Present(Entry(frames, d, v))
      requires mem < |owner| && mem < VPAGES && owner[mem].Held? && perm < PGSIZE
      requires Linked()
      modifies this
      ensures Linked()
      ensures ok ==> UserMapped(old(Now()), Now(), d, v, PteFor(mem, perm))
      ensures !ok ==> Now() == old(Now()) && TooFew(Now(), d, v, v + 1, 0)
    {
      hide Good, Linked, UserMapped, KernelMapped, Grew, OnlyHeld, Entry, TooFew;
      var r := Mappages(d, v * PGSIZE, PGSIZE, mem * PGSIZE, perm);
      ok := r.Mapped?;
    }

    /** kfree of page f and *pte = 0. kfree writes to the page and not to the table, so that it may come second. */
    method Unmap(t: nat, k: nat, f: nat)
      requires t < |frames| && k < NPTENTRIES && f < |owner|
      requires Good(Image(frames[t := frames[t][k := 0]], free, owner[f := Held]))
      requires Linked()
      modifies this
      ensures Linked()
      ensures Good(Now()) && f < |old(frames)|
      ensures Now() == GiveImage(Image(old(frames)[t := old(frames)[t][k := 0]], old(free), old(owner)[f := Held]), f)
    {
      frames := frames[t := frames[t][k := 0]];
      owner := owner[f := Held];
      Kfree(f);
    }

    /** One turn of deallocuvm at address a: the next address. */
    method DropPage(d: nat, a: nat) returns (next: nat)
      requires Good(Now()) && IsDir(Now(), d) && a % PGSIZE == 0 && a < KERNBASE
      requires Linked()
      modifies this
      ensures Linked()
      ensures next % PGSIZE == 0 && next > a && Good(Now())
      ensures Dropped(old(Now()), Now(), d, a / PGSIZE, next / PGSIZE)
    {
      var v := a / PGSIZE;
      ghost var m := Now();
      if Present(frames[d][v / NPTENTRIES]) { DropMeans(m, d, v); } else { SkippedTable(m, d, v); }
      hide Good, Linked, Dropped, Entry, Shrunk, GiveImage;
      NextPage(a);
      var t := Walkpgdir(d, v, false);
      if t == -1 {
        // a = PGADDR(PDX(a) + 1, 0, 0) - PGSIZE; a += PGSIZE
        next := (v / NPTENTRIES + 1) * NPTENTRIES * PGSIZE;
        return;
      }
      next := a + PGSIZE;
      var pte := frames[t][v % NPTENTRIES];
      if Present(pte) {
        Unmap(t, v % NPTENTRIES, Frame(pte));
      }
    }

    /** deallocuvm, for sizes up to KERNBASE: the pages between the new and the old size are unmapped and
        given back, absent tables are passed over, and nothing else changes. */
    method Deallocuvm(d: nat, oldsz: Uint, newsz: Uint) returns (r: Uint)
      requires Good(Now()) && IsDir(Now(), d) && oldsz <= KERNBASE
      requires Linked()
      modifies this
      ensures Linked()
      ensures r == if newsz >= oldsz then oldsz else newsz
      ensures newsz >= oldsz ==> Now() == old(Now())
      ensures newsz < oldsz ==> Good(Now()) && Shrunk(old(Now()), Now(), d, PagesFor(newsz), PagesFor(oldsz))
    {
      if newsz >= oldsz { return oldsz; }
      ghost var m, lo := Now(), PagesFor(newsz);
      ShrunkNothing(m, d, lo);
      hide Good, Linked, Shrunk;
      var a := (newsz + PGSIZE - 1) % UINT_LIMIT;
      a := a - a % PGSIZE;
      ghost var k := lo;
      while a < oldsz
        invariant Linked()
        invariant lo <= k && a == k * PGSIZE && (k <= PagesFor(oldsz) || a >= oldsz)
        invariant Good(Now()) && Shrunk(m, Now(), d, lo, if k <= PagesFor(oldsz) then k else PagesFor(oldsz))
        decreases oldsz + PGSIZE - a
      {
        assert k < PagesFor(oldsz) <= USERPAGES;
        ghost var n := Now();
        ShrunkMeans(m, n, d, lo, k);
        var next := DropPage(d, a);
        DropDone(m, n, Now(), d, lo, k, next / PGSIZE, PagesFor(oldsz));
        a := next;
        k := next / PGSIZE;
      }
      return newsz;
    }

    /** One turn of the loop in allocuvm: the page taken, and whether it has been mapped. */
    method AllocPage(d: nat, v: nat, ghost m: Image, ghost lo: nat, ghost hi: nat) returns (mem: nat, done: bool)
      requires Growing(m, Now(), d, lo, v, hi) && v < hi
      requires Linked()
      modifies this
      ensures Linked()
      ensures done ==> Growing(m, Now(), d, lo, v + 1, hi)
      ensures !done ==> Stuck(m, Now(), d, lo, v, hi, mem) && lo <= hi && TooFew(m, d, lo, hi, hi - lo)
    {
      ghost var n := Now();
      GrowingMeans(m, n, d, lo, v, hi);
      hide Good, Linked, Grew, OnlyHeld, SameEntries, UserMapped, Zeroed, FailedPage, Extended, Entry, Paid, TooFew,
        Growing, Stuck;
      if |free| > 0 { TakenZeroed(n, d); } else { FailedNothing(n, d); NoneFree(n, d, v); }
      mem := Kalloc();
      if mem == 0 {
        GrowingFails(m, n, n, d, lo, v, hi, mem);
        return 0, false;
      }
      frames := frames[mem := ZeroPage()];
      ghost var x := Now();
      ZeroedMeans(n, x, d, mem, v);
      done := MapUserPage(d, v, mem, PTE_W + PTE_U);
      if done {
        FreshMapped(n, x, Now(), d, v, mem);
        GrowingStep(m, n, Now(), d, lo, v, hi);
      } else {
        GrowingFails(m, n, x, d, lo, v, hi, mem);
      }
    }

    /** How allocuvm undoes what it has done when memory runs out at page k. */
    method GiveUp(d: nat, oldsz: Uint, newsz: Uint, mem: nat, ghost m: Image, ghost k: nat)
      requires oldsz < newsz < KERNBASE && Stuck(m, Now(), d, PagesFor(oldsz), k, PagesFor(newsz), mem)
      requires Linked()
      modifies this
      ensures Linked()
      ensures OnlyHeld(Now(), -1) && RolledBack(m, Now(), d, PagesFor(oldsz), PagesFor(newsz))
    {
      hide Good, Linked, OnlyHeld, Shrunk, RolledBack, Grew, SameEntries, HeldGiven, Entry;
      ghost var x, lo, hi := Now(), PagesFor(oldsz), PagesFor(newsz);
      var _ := Deallocuvm(d, newsz, oldsz);
      ghost var y := Now();
      ShrunkHeld(x, y, d, lo, hi, if mem == 0 then -1 else mem);
      if mem == 0 { NoneToGive(y); } else { GiveLast(y, mem); Kfree(mem); }
      RollBack(m, x, y, Now(), d, lo, k, hi);
    }

    /** The loop of allocuvm. */
    method Grow(d: nat, oldsz: Uint, newsz: Uint) returns (ok: bool)
      requires Good(Now()) && IsDir(Now(), d) && OnlyHeld(Now(), -1) && oldsz <= newsz < KERNBASE
      requires forall v :: PagesFor(oldsz) <= v < PagesFor(newsz) ==> !Present(Entry(frames, d, v))
      requires Linked()
      modifies this
      ensures Linked()
      ensures GrowOutcome(old(Now()), Now(), d, PagesFor(oldsz), PagesFor(newsz), ok)
    {
      GrowingStart(Now(), d, PagesFor(oldsz), PagesFor(newsz));
      PageAtStart(oldsz);
      hide Good, Linked, Growing, Entry, PagesFor, RoundDown, PageAt, GrowOutcome;
      ok := GrowFrom(d, RoundDown(oldsz + PGSIZE - 1), oldsz, newsz, PagesFor(oldsz), PagesFor(newsz));
    }

    /** The loop itself, from the address `first` on. */
    method GrowFrom(d: nat, first: nat, oldsz: Uint, newsz: Uint, ghost lo: nat, ghost hi: nat) returns (ok: bool)
      requires oldsz <= newsz < KERNBASE && lo == PagesFor(oldsz) <= hi == PagesFor(newsz)
      requires PageAt(first, lo) && Growing(Now(), Now(), d, lo, lo, hi)
      requires Linked()
      modifies this
      ensures Linked()
      ensures GrowOutcome(old(Now()), Now(), d, lo, hi, ok)
    {
      hide Good, Linked, Extended, OnlyHeld, RolledBack, TooFew, FailedPage, Growing, Stuck, Entry, PagesFor, RoundDown,
        PageAt, GrowOutcome;
      ghost var m := Now();
      var a := first;
      ghost var k: nat := lo;
      while a < newsz
        invariant Linked()
        invariant PageAt(a, k) && lo <= k <= hi
        invariant Growing(m, Now(), d, lo, k, hi)
        decreases newsz - a
      {
        PageAtMeans(a, k, newsz);
        var mem, done := AllocPage(d, a / PGSIZE, m, lo, hi);
        if !done {
          GiveUp(d, oldsz, newsz, mem, m, k);
          GrowFailed(m, Now(), d, lo, hi);
          return false;
        }
        PageAtNext(a, k);
        a, k := a + PGSIZE, k + 1;
      }
      PageAtMeans(a, k, newsz);
      GrowingDone(m, Now(), d, lo, hi);
      return true;
    }

    /** allocuvm. It refuses sizes from KERNBASE on and leaves a larger process alone. Otherwise the pages
        up to the new size are there afterwards, zeroed and writable by the user, if there are enough free
        pages for them and for the missing tables; otherwise the new pages are gone again and given back,
        and only tables of d may have been added. */
    method Allocuvm(d: nat, oldsz: Uint, newsz: Uint) returns (r: Uint, ok: bool)
      requires Good(Now()) && IsDir(Now(), d) && OnlyHeld(Now(), -1)
      requires newsz < KERNBASE ==> forall v :: PagesFor(oldsz) <= v < PagesFor(newsz) ==> !Present(Entry(frames, d, v))
      requires Linked()
      modifies this
      ensures Linked()
      ensures newsz >= KERNBASE ==> r == 0 && !ok && Now() == old(Now())
      ensures newsz < KERNBASE && newsz < oldsz ==> r == oldsz && ok && Now() == old(Now())
      ensures oldsz <= newsz < KERNBASE ==> r == (if ok then newsz else 0) && OnlyHeld(Now(), -1)
      ensures oldsz <= newsz < KERNBASE ==>
        (ok <==> !TooFew(old(Now()), d, PagesFor(oldsz), PagesFor(newsz), PagesFor(newsz) - PagesFor(oldsz)))
      ensures oldsz <= newsz < KERNBASE && ok ==> Extended(old(Now()), Now(), d, PagesFor(oldsz), PagesFor(newsz))
      ensures oldsz <= newsz < KERNBASE && ok ==> forall a: Uint ::
        PagesFor(oldsz) <= a / PGSIZE < PagesFor(newsz) ==> Reachable(frames, d, a)
      ensures oldsz <= newsz < KERNBASE && !ok ==> RolledBack(old(Now()), Now(), d, PagesFor(oldsz), PagesFor(newsz))
    {
      if newsz >= KERNBASE { return 0, false; }
      if newsz < oldsz { return oldsz, true; }
      ghost var m := Now();
      ok := Grow(d, oldsz, newsz);
      r := if ok then newsz else 0;
      if ok {
        forall a: Uint | PagesFor(oldsz) <= a / PGSIZE < PagesFor(newsz) ensures Reachable(frames, d, a) {
          ExtendedMmu(m, Now(), d, PagesFor(oldsz), PagesFor(newsz), a);
        }
      }
    }

    /** freevm: every page of d, its tables and d itself are given back, each once, and nothing else changes. */
    method Freevm(d: nat)
      requires Good(Now()) && IsDir(Now(), d) && OnlyHeld(Now(), -1)
      requires Linked()
      modifies this
      ensures Linked()
      ensures Good(Now()) && Freed(old(Now()), Now(), d) && OnlyHeld(Now(), -1)
    {
      ghost var m := Now();
      var _ := Deallocuvm(d, KERNBASE, 0);
      ghost var x := Now();
      ShrunkHeld(m, x, d, 0, USERPAGES, -1);
      DropKeeps(m, x, d);
      hide Good, Linked, Shrunk, OnlyHeld, TablesFreed, Freed, GiveImage;
      // from here on d is no directory any more, and it and its tables are merely held
      owner := WithoutDir(owner, d);
      FreeTables(d, m, x);
      ghost var n := Now();
      TablesDone(m, x, n, d);
      Kfree(d);
      FreedDone(m, x, n, Now(), d);
    }

    /** The loop of freevm. */
    method FreeTables(d: nat, ghost m: Image, ghost x: Image)
      requires Good(Now()) && TablesFreed(m, x, Now(), d, 0)
      requires Linked()
      modifies this
      ensures Linked()
      ensures Good(Now()) && TablesFreed(m, x, Now(), d, NPTENTRIES)
    {
      hide Good, Linked, TablesFreed, GiveImage;
      var i := 0;
      while i < NPTENTRIES
        invariant Linked()
        invariant 0 <= i <= NPTENTRIES
        invariant Good(Now()) && TablesFreed(m, x, Now(), d, i)
      {
        ghost var n := Now();
        TablesMean(m, x, n, d, i);
        var pde := frames[d][i];
        if Present(pde) {
          Kfree(Frame(pde));
        }
        TablesStep(m, x, n, Now(), d, i);
        i := i + 1;
      }
    }

    /** setupkvm: a new directory that maps the kernel's regions and nothing else; 0 exactly when there are
        not the 65 pages that it takes, and then everything taken has been given back. */
    method Setupkvm() returns (d: nat)
      requires Good(Now()) && OnlyHeld(Now(), -1) && DataOk(data)
      requires Linked()
      modifies this
      ensures Linked()
      ensures d == 0 ==> Restored(old(Now()), Now())
      ensures d != 0 ==> Good(Now()) && OnlyHeld(Now(), -1) && Beside(old(Now()), Now(), d) && SetUp(data, Now(), d, 4)
      ensures d != 0 ==> Funded(data, old(Now()), Now(), d, 4)
      ensures d != 0 <==> |old(free)| >= PagesNeeded(0)
    {
      ghost var m := Now();
      hide Good, Linked, OnlyHeld, Beside, SetUp, Restored, Freed, KernelMapped, Grew, UserMapped, Kmap, Bound,
        KernelEntry, Entry, Funded, Paid, TooFew, PagesNeeded;
      if |free| > 0 { NewDirBeside(data, m); FundedStart(data, m); } else { RestoredNothing(m); NeedSome(0); }
      d := Kalloc();
      if d == 0 { return 0; }
      frames := frames[d := ZeroPage()];
      owner := owner[d := Dir];
      assert Now() == NewDir(m);
      var i := 0;
      while i < 4
        invariant Linked()
        invariant 0 <= i <= 4 && Good(m) && OnlyHeld(m, -1)
        invariant Good(Now()) && OnlyHeld(Now(), -1) && Beside(m, Now(), d) && SetUp(data, Now(), d, i)
        invariant Funded(data, m, Now(), d, i)
      {
        ghost var n := Now();
        var k := Kmap(data, i);
        RegionPages(data, i);
        SetUpMeans(data, n, d, i);
        var r := Mappages(d, k.virt, (k.end - k.start) % UINT_LIMIT, k.start, k.perm);
        if r.NoMemory? {
          BesideGrew(m, n, Now(), d);
          FundedFew(data, m, n, d, i);
          ghost var x := Now();
          BesideMeans(m, x, d);
          Freevm(d);
          BesideFreed(m, x, Now(), d);
          return 0;
        }
        MappedRegion(data, m, n, Now(), d, i);
        i := i + 1;
      }
      FundedEnough(data, m, Now(), d);
    }

    /** kalloc and the memmove into the new page; 0 if no page is free. */
    method CopyFrame(e: nat, pa: nat) returns (mem: nat)
      requires Good(Now()) && OnlyHeld(Now(), -1) && IsDir(Now(), e) && pa < |frames|
      requires Linked()
      modifies this
      ensures Linked()
      ensures mem == 0 ==> |old(free)| == 0 && Now() == old(Now())
      ensures mem != 0 ==> Filled(old(Now()), Now(), e, mem, old(frames)[pa])
    {
      ghost var n := Now();
      if |free| > 0 { TakenFilled(n, e, frames[pa]); }
      hide Good, OnlyHeld, Filled;
      mem := Kalloc();
      if mem == 0 { return 0; }
      frames := frames[mem := frames[pa]];
    }

    /** One turn of copyuvm. */
    method CopyPage(d: nat, e: nat, v: nat, ghost m: Image) returns (ok: bool)
      requires DataOk(data) && Copying(data, m, Now(), d, e, v) && v < USERPAGES && Present(Entry(m.frames, d, v))
      requires Linked()
      modifies this
      ensures Linked()
      ensures ok ==> Copying(data, m, Now(), d, e, v + 1)
      ensures !ok ==> CopyFailed(m, Now(), e) && |m.free| < PagesNeeded(v + 1)
    {
      ghost var n := Now();
      CopyingMeans(data, m, n, d, e, v);
      hide Good, Linked, OnlyHeld, Beside, Copying, CopyFailed, Filled, Grew, UserMapped, Entry, SameEntries, TooFew,
        PagesNeeded;
      var t := Walkpgdir(d, v, false);
      var pte := frames[t][v % NPTENTRIES];
      var pa, flags := Frame(pte), Flags(pte);
      var mem := CopyFrame(e, pa);
      if mem == 0 {
        CopyNoneFree(data, m, n, d, e, v);
        return false;
      }
      ghost var x := Now();
      FilledMeans(n, x, e, mem, m.frames[pa], v);
      ok := MapUserPage(e, v, mem, flags);
      if ok {
        CopyStep(data, m, n, x, Now(), d, e, v, mem, flags);
      } else {
        FilledFails(data, m, n, x, d, e, v, mem, m.frames[pa]);
        FilledFew(data, m, n, x, d, e, v, mem, m.frames[pa]);
        Kfree(mem);
      }
    }

    /** copyuvm: a new directory with the same bytes under the same flags at every page below sz, each on a
        page of its own, and the kernel's regions; the old one is untouched. 0 exactly when there are not
        the pages that it takes, and then everything taken has been given back. */
    method Copyuvm(d: nat, sz: Uint) returns (e: nat)
      requires Good(Now()) && OnlyHeld(Now(), -1) && DataOk(data) && IsDir(Now(), d) && sz <= KERNBASE
      requires forall v :: 0 <= v < PagesFor(sz) && v < VPAGES ==> Present(Entry(frames, d, v))
      requires Linked()
      modifies this
      ensures Linked()
      ensures e != 0 <==> |old(free)| >= PagesNeeded(PagesFor(sz))
      ensures e == 0 ==> Restored(old(Now()), Now())
      ensures e != 0 ==> Copying(data, old(Now()), Now(), d, e, PagesFor(sz))
      ensures e != 0 ==> forall a: Uint :: a / PGSIZE < PagesFor(sz) ==> SameThere(old(frames), d, frames, e, a)
    {
      ghost var m := Now();
      hide Good, Linked, OnlyHeld, Beside, SetUp, Restored, Freed, Copying, CopyFailed, Entry, Funded, PagesNeeded;
      NeededMonotone(0, PagesFor(sz));
      e := Setupkvm();
      if e == 0 { return 0; }
      CopyStart(data, m, Now(), d, e);
      var i := 0;
      ghost var k := 0;
      while i < sz
        invariant Linked()
        invariant i == k * PGSIZE && 0 <= k <= PagesFor(sz)
        invariant Copying(data, m, Now(), d, e, k)
        decreases sz - i
      {
        assert i / PGSIZE == k;
        var ok := CopyPage(d, e, i / PGSIZE, m);
        if !ok {
          ghost var x := Now();
          CopyFailedMeans(m, x, e);
          NeededMonotone(k + 1, PagesFor(sz));
          Freevm(e);
          BesideFreed(m, x, Now(), e);
          return 0;
        }
        i, k := i + PGSIZE, k + 1;
      }
      CopyEnough(data, m, Now(), d, e, k);
      forall a: Uint | a / PGSIZE < PagesFor(sz) ensures SameThere(m.frames, d, frames, e, a) {
        CopyMmu(data, m, Now(), d, e, k, a);
      }
    }

    /** uva2ka: the page behind page v of d if the user may access it, or -1 for a null pointer. */
    method Uva2ka(d: nat, v: nat) returns (f: int)
      requires Good(Now()) && IsDir(Now(), d) && v < VPAGES && Present(frames[d][v / NPTENTRIES])
      requires Linked()
      modifies this
      ensures Linked()
      ensures Now() == old(Now())
      ensures f == if Accessible(Entry(frames, d, v)) then Frame(Entry(frames, d, v)) else -1
      ensures f != -1 && v < USERPAGES ==> 0 <= f < |frames|
    {
      assert PdeOk(Now(), d, v / NPTENTRIES) && (v < USERPAGES ==> PteOk(Now(), d, v));
      var t := Walkpgdir(d, v, false);
      var pte := frames[t][v % NPTENTRIES];
      if !Present(pte) { return -1; }
      if pte / PTE_U % 2 != 1 { return -1; }
      return Frame(pte);
    }

    /** One turn of copyout: how many bytes were copied, 0 if uva2ka returns a null pointer. */
    method CopyChunk(d: nat, a: Uint, buf: seq<Byte>) returns (size: nat)
      requires Good(Now()) && IsDir(Now(), d) && TableAt(Now(), d, a) && KernelClosed(Now(), d) && |buf| > 0
      requires Linked()
      modifies this
      ensures Linked()
      ensures ChunkCopied(old(Now()), Now(), d, a, buf, size)
    {
      ChunkWrites(Now(), d, a, buf);
      hide Good, Linked, Entry, Written, RoundDown, KernelClosed, ChunkSize, ChunkCopied, Accessible, Overwrite, Bytes,
        PageOf;
      var va0 := RoundDown(a);
      var pa0 := Uva2ka(d, va0 / PGSIZE);
      if pa0 == -1 { return 0; }
      size := ChunkSize(a, |buf|);
      frames := frames[pa0 := PageOf(Overwrite(Bytes(frames[pa0]), a - va0, buf[..size]))];
    }

    /** copyout: 0 exactly if every byte of the range is on a page that the user may access; the bytes up to
        the first that is not are there afterwards for d to see, and no directory sees any other change. The
        kernel's part of the address space is out of reach, wherever the range lies. */
    method Copyout(d: nat, va: Uint, p: seq<Byte>) returns (r: int, ghost done: nat)
      requires Good(Now()) && IsDir(Now(), d) && |p| < UINT_LIMIT && KernelClosed(Now(), d)
      requires forall a :: va <= a < va + |p| && (a <= KERNBASE || a == va) ==> TableAt(Now(), d, a)
      requires Linked()
      modifies this
      ensures Linked()
      ensures r == 0 || r == -1
      ensures r == 0 <==> forall a :: va <= a < va + |p| ==> AccessibleAt(old(Now()), d, a)
      ensures done <= |p| && Written(old(Now()), Now(), d, va, p[..done])
      ensures forall a :: va <= a < va + done ==> AccessibleAt(old(Now()), d, a)
      ensures if r == 0 then done == |p| else done < |p| && !AccessibleAt(old(Now()), d, va + done)
    {
      ghost var m := Now();
      CopyOutStart(m, d, va, p);
      hide Good, Linked, Written, TableAt, AccessibleAt, Entry, CopyingOut, ChunkCopied, RoundDown, KernelClosed;
      var a: Uint, buf := va, p;
      done := 0;
      while |buf| > 0
        invariant Linked()
        invariant done <= |p| && buf == p[done..] && (|buf| > 0 ==> a == va + done)
        invariant CopyingOut(m, Now(), d, va, p, done)
        decreases |buf|
      {
        ghost var n := Now();
        CopyOutMeans(m, n, d, va, p, done);
        var size := CopyChunk(d, a, buf);
        CopyOutStep(m, n, Now(), d, va, p, done, a, size);
        if size == 0 {
          CopyOutStops(m, n, d, va, p, done);
          return -1, done;
        }
        a, buf := RoundDown(a) + PGSIZE, buf[size..];
        done := done + size;
      }
      CopyOutDone(m, Now(), d, va, p);
      return 0, done;
    }
  }
}
