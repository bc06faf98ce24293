/** Growing and shrinking the user part of an address space (vm.c: allocuvm, deallocuvm), and undoing a
    growth for which memory does not suffice. */
module Resizing {
  import opened Sets
  import opened KernelMemory
  import opened UserMemory
  import opened Mapping

  // ----- shrinking -----

  /** One page when the user pages lo to hi of d are unmapped: theirs are free, all others as before. */
  predicate ShrunkAt(m: Image, n: Image, d: nat, lo: nat, hi: nat, f: nat)
    requires f < |m.owner| == |n.owner| == |m.frames| == |n.frames|
  {
    if m.owner[f].User? && m.owner[f].d == d && lo <= m.owner[f].v < hi then n.owner[f].Free?
    else
      && n.owner[f] == m.owner[f]
      && (m.owner[f].Free? || (m.owner[f].Table? && m.owner[f].d == d) || n.frames[f] == m.frames[f])
  }

  /** The user pages lo to hi of d have been unmapped and given back, and nothing else has changed. */
  ghost predicate Shrunk(m: Image, n: Image, d: nat, lo: nat, hi: nat) {
    && |m.owner| == |n.owner| == |m.frames| == |n.frames|
    && SameEntries(m, n, d, lo, hi)
    && (forall v :: lo <= v < hi && v < VPAGES ==> !Present(Entry(n.frames, d, v)))
    && (forall f :: 0 <= f < |m.owner| ==> ShrunkAt(m, n, d, lo, hi, f))
  }

  lemma ShrunkNothing(m: Image, d: nat, lo: nat)
    requires Good(m) && IsDir(m, d)
    ensures Shrunk(m, m, d, lo, lo)
  {
    forall f | 0 <= f < |m.owner| ensures ShrunkAt(m, m, d, lo, lo, f) {}
  }

  /** The pages from v on are not mapped: passing over them unmaps them. */
  lemma ShrunkOver(m: Image, n: Image, d: nat, lo: nat, v: nat, hi: nat)
    requires Good(m) && Shrunk(m, n, d, lo, v) && lo <= v <= hi <= USERPAGES
    requires forall u :: v <= u < hi ==> !Present(Entry(n.frames, d, u))
    ensures Shrunk(m, n, d, lo, hi)
  {
    forall f | 0 <= f < |m.owner| ensures ShrunkAt(m, n, d, lo, hi, f) {
      assert ShrunkAt(m, n, d, lo, v, f) && OwnerOk(m, f);
      if m.owner[f].User? && m.owner[f].d == d && v <= m.owner[f].v < hi {
        assert Entry(n.frames, d, m.owner[f].v) == Entry(m.frames, d, m.owner[f].v);
        assert !Present(Entry(n.frames, d, m.owner[f].v));
      }
    }
  }

  /** Clearing the entry of page v and giving the page back. */
  function ClearImage(m: Image, d: nat, v: nat): (n: Image)
    requires d < |m.frames| == |m.owner| && v < VPAGES && Frame(m.frames[d][v / NPTENTRIES]) < |m.frames|
    requires Frame(Entry(m.frames, d, v)) < |m.owner|
  {
    var f := Frame(Entry(m.frames, d, v));
    GiveImage(Image(EntryFrames(m.frames, d, v, 0), m.free, m.owner[f := Held]), f)
  }

  lemma ClearKeeps(m: Image, d: nat, v: nat)
    requires Good(m) && HasTable(m, d, v) && v < USERPAGES && Present(Entry(m.frames, d, v))
    ensures Frame(Entry(m.frames, d, v)) < |m.owner| && m.owner[Frame(Entry(m.frames, d, v))] == User(d, v)
    ensures Good(ClearImage(m, d, v)) && Shrunk(m, ClearImage(m, d, v), d, v, v + 1)
  {
    assert PteOk(m, d, v) && PdeOk(m, d, v / NPTENTRIES);
    var f := Frame(Entry(m.frames, d, v));
    var a := Image(EntryFrames(m.frames, d, v, 0), m.free, m.owner[f := Held]);
    SetKeeps(m, d, v, 0, a.owner);
    GiveKeeps(a, f);
    hide Good, Junk, Head;
    ClearedEntries(m, d, v);
    ClearedOwners(m, d, v, v + 1);
    hide EntryFrames, Entry, GiveImage;
  }

  lemma ClearedEntries(m: Image, d: nat, v: nat)
    requires Good(m) && HasTable(m, d, v) && v < USERPAGES && Present(Entry(m.frames, d, v))
    requires Frame(Entry(m.frames, d, v)) < |m.owner| && m.owner[Frame(Entry(m.frames, d, v))] == User(d, v)
    requires Good(Image(EntryFrames(m.frames, d, v, 0), m.free, m.owner[Frame(Entry(m.frames, d, v)) := Held]))
    ensures IsDir(ClearImage(m, d, v), d)
    ensures forall u :: 0 <= u < VPAGES ==>
      Entry(ClearImage(m, d, v).frames, d, u) == if u == v then 0 else Entry(m.frames, d, u)
  {
    var f, n := Frame(Entry(m.frames, d, v)), ClearImage(m, d, v);
    GiveKeeps(Image(EntryFrames(m.frames, d, v, 0), m.free, m.owner[f := Held]), f);
    hide Good, Entry;
    forall u | 0 <= u < VPAGES ensures Entry(n.frames, d, u) == if u == v then 0 else Entry(m.frames, d, u) {
      EntryAfterSet(m, d, v, 0, d, u);
    }
  }

  lemma ClearedOwners(m: Image, d: nat, v: nat, next: nat)
    requires next == v + 1 && Good(m) && HasTable(m, d, v) && v < USERPAGES && Present(Entry(m.frames, d, v))
    requires Frame(Entry(m.frames, d, v)) < |m.owner| && m.owner[Frame(Entry(m.frames, d, v))] == User(d, v)
    ensures |m.owner| == |m.frames|
    ensures forall g :: 0 <= g < |m.owner| ==> ShrunkAt(m, ClearImage(m, d, v), d, v, next, g)
  {
    assert PdeOk(m, d, v / NPTENTRIES);
    var n := ClearImage(m, d, v);
    forall g | 0 <= g < |m.owner| ensures ShrunkAt(m, n, d, v, next, g) { assert OwnerOk(m, g); }
  }

  lemma ShrunkStep(l: Image, m: Image, n: Image, d: nat, lo: nat, v: nat)
    requires Good(l) && Good(m) && Shrunk(l, m, d, lo, v) && Shrunk(m, n, d, v, v + 1) && lo <= v
    ensures Shrunk(l, n, d, lo, v + 1)
  {
    var next := v + 1;
    forall f | 0 <= f < |l.owner| ensures ShrunkAt(l, n, d, lo, next, f) {
      assert ShrunkAt(l, m, d, lo, v, f) && ShrunkAt(m, n, d, v, next, f) && OwnerOk(m, f);
    }
  }

  lemma ShrunkHeld(m: Image, n: Image, d: nat, lo: nat, hi: nat, h: int)
    requires Shrunk(m, n, d, lo, hi) && OnlyHeld(m, h)
    ensures |n.owner| == |m.owner| == |n.frames| == |m.frames|
    ensures OnlyHeld(n, h)
    ensures 0 <= h < |m.owner| && m.owner[h].Held? ==> n.owner[h].Held? && n.frames[h] == m.frames[h]
  {
    forall g | 0 <= g < |n.owner| && n.owner[g].Held? ensures g == h { assert ShrunkAt(m, n, d, lo, hi, g); }
    if 0 <= h < |m.owner| { assert ShrunkAt(m, n, d, lo, hi, h); }
  }

  lemma ShrunkMeans(m: Image, n: Image, d: nat, lo: nat, hi: nat)
    requires Shrunk(m, n, d, lo, hi)
    ensures IsDir(n, d)
  {}

  /** Pages v to next have been passed over as absent, or page v alone has been dropped. */
  ghost predicate Dropped(m: Image, n: Image, d: nat, v: nat, next: nat) {
    && IsDir(m, d) && v < next
    && ((n == m && forall u :: v <= u < next && u < VPAGES ==> !Present(Entry(m.frames, d, u)))
        || (next == v + 1 && Shrunk(m, n, d, v, next)))
  }

  lemma DropDone(l: Image, m: Image, n: Image, d: nat, lo: nat, v: nat, next: nat, hi: nat)
    requires Good(l) && Good(m) && Shrunk(l, m, d, lo, v) && Dropped(m, n, d, v, next) && lo <= v < hi <= USERPAGES
    ensures Shrunk(l, n, d, lo, if next <= hi then next else hi)
  {
    if n == m && forall u :: v <= u < next && u < VPAGES ==> !Present(Entry(m.frames, d, u)) {
      ShrunkOver(l, m, d, lo, v, if next <= hi then next else hi);
    } else {
      ShrunkStep(l, m, n, d, lo, v);
    }
  }

  /** Where there is no table there is no page, up to the next table's first page. */
  lemma SkippedTable(m: Image, d: nat, v: nat)
    requires Good(m) && IsDir(m, d) && v < USERPAGES && !Present(m.frames[d][v / NPTENTRIES])
    ensures Dropped(m, m, d, v, (v / NPTENTRIES + 1) * NPTENTRIES)
  {
    forall u | v <= u < (v / NPTENTRIES + 1) * NPTENTRIES && u < VPAGES ensures !Present(Entry(m.frames, d, u)) {
      assert u / NPTENTRIES == v / NPTENTRIES;
    }
  }

  /** The next page, and the first page under the next table. */
  lemma NextPage(a: nat)
    requires a % PGSIZE == 0
    ensures (a + PGSIZE) % PGSIZE == 0 && (a + PGSIZE) / PGSIZE == a / PGSIZE + 1
    ensures var v := (a / PGSIZE / NPTENTRIES + 1) * NPTENTRIES;
      v * PGSIZE % PGSIZE == 0 && v * PGSIZE > a && v * PGSIZE / PGSIZE == v
  {}

  /** The page that is dropped, if there is one. */
  lemma DropMeans(m: Image, d: nat, v: nat)
    requires Good(m) && IsDir(m, d) && v < USERPAGES && Present(m.frames[d][v / NPTENTRIES])
    ensures HasTable(m, d, v)
    ensures var pte := m.frames[Frame(m.frames[d][v / NPTENTRIES])][v % NPTENTRIES]; var f := Frame(pte);
      if Present(pte) then
        && 0 < f < |m.owner| && Good(Image(EntryFrames(m.frames, d, v, 0), m.free, m.owner[f := Held]))
        && Dropped(m, GiveImage(Image(EntryFrames(m.frames, d, v, 0), m.free, m.owner[f := Held]), f), d, v, v + 1)
      else Dropped(m, m, d, v, v + 1)
  {
    assert PdeOk(m, d, v / NPTENTRIES) && PteOk(m, d, v);
    if Present(Entry(m.frames, d, v)) {
      ClearKeeps(m, d, v);
      SetKeeps(m, d, v, 0, m.owner[Frame(Entry(m.frames, d, v)) := Held]);
    }
  }

  // ----- growing -----

  /** Page v of d is a fresh page of zeros with the given flags. */
  predicate FreshPage(n: Image, d: nat, v: nat) {
    && d < |n.frames| && v < VPAGES && Present(Entry(n.frames, d, v))
        && Flags(Entry(n.frames, d, v)) == PTE_P + PTE_W + PTE_U
    && Frame(Entry(n.frames, d, v)) < |n.frames| == |n.owner| && n.frames[Frame(Entry(n.frames, d, v))] == ZeroPage()
    && n.owner[Frame(Entry(n.frames, d, v))] == User(d, v)
  }

  /** Pages lo to hi of d have been added, all of them fresh, and nothing else has changed. */
  ghost predicate Extended(m: Image, n: Image, d: nat, lo: nat, hi: nat) {
    && Good(n) && Grew(m, n, d) && SameEntries(m, n, d, lo, hi) && lo <= hi && Paid(m, n, d, lo, hi, hi - lo)
    && forall v :: lo <= v < hi ==> FreshPage(n, d, v)
  }

  lemma ExtendedStep(l: Image, m: Image, n: Image, d: nat, lo: nat, v: nat)
    requires Good(l) && Extended(l, m, d, lo, v) && Extended(m, n, d, v, v + 1) && lo <= v
    ensures Extended(l, n, d, lo, v + 1)
  {
    GrewTransitive(l, m, n, d);
    PaidStep(l, m, n, d, lo, v, v + 1, v - lo, 1);
    SameEntriesStep(l, m, n, d, lo, v, v + 1);
    forall u | lo <= u < v ensures FreshPage(n, d, u) {
      assert FreshPage(m, d, u);
      FreshStays(m, n, d, u);
    }
    hide Paid, Grew, FreshPage, SameEntries, Good;
  }

  lemma FreshStays(m: Image, n: Image, d: nat, u: nat)
    requires FreshPage(m, d, u) && Grew(m, n, d) && u < VPAGES && Entry(n.frames, d, u) == Entry(m.frames, d, u)
    ensures FreshPage(n, d, u)
  {
    assert GrewAt(m, n, d, Frame(Entry(m.frames, d, u)));
  }

  lemma ExtendedNothing(m: Image, d: nat, lo: nat)
    requires Good(m) && IsDir(m, d)
    ensures Extended(m, m, d, lo, lo)
  {
    PaidNothing(m, d, lo);
    forall f | 0 <= f < |m.owner| ensures GrewAt(m, m, d, f) {}
  }

  /** At every address of the new pages the processor finds a page of zeros and lets the user read and write. */
  lemma ExtendedMmu(m: Image, n: Image, d: nat, lo: nat, hi: nat, a: Uint)
    requires Extended(m, n, d, lo, hi) && lo <= a / PGSIZE < hi
    ensures IsDir(n, d) && Mmu(n.frames, d, a).Page?
    ensures var x := Mmu(n.frames, d, a);
      x.write && x.user && x.frame < |n.frames| && n.frames[x.frame] == ZeroPage()
  {
    assert FreshPage(n, d, a / PGSIZE);
    AllAllowed(Entry(n.frames, d, a / PGSIZE));
    MmuIs(n, d, a);
  }

  lemma ExtendedPaid(m: Image, n: Image, d: nat, lo: nat, hi: nat)
    requires Extended(m, n, d, lo, hi)
    ensures lo <= hi && !TooFew(m, d, lo, hi, hi - lo)
  {
    PaidEnough(m, n, d, lo, hi, hi - lo);
  }

  // ----- undoing -----

  /** After a failure: what was in use is as it was, what was free is free or a table of d. */
  predicate BackAt(m: Image, n: Image, d: nat, f: nat)
    requires f < |m.owner| == |n.owner| == |m.frames| == |n.frames|
  {
    match m.owner[f]
    case Free => n.owner[f].Free? || (n.owner[f].Table? && n.owner[f].d == d)
    case Held => n.owner[f].Free? || (n.owner[f].Table? && n.owner[f].d == d)
    case _ => GrewAt(m, n, d, f)
  }

  ghost predicate RolledBack(m: Image, n: Image, d: nat, lo: nat, hi: nat) {
    && Good(n) && |m.owner| == |n.owner| == |m.frames| == |n.frames|
    && SameEntries(m, n, d, lo, hi)
    && (forall v :: lo <= v < hi && v < VPAGES ==> !Present(Entry(n.frames, d, v)))
    && (forall f :: 0 <= f < |m.owner| ==> BackAt(m, n, d, f))
  }

  /** The pages that were held have been given back as well. */
  ghost predicate HeldGiven(n: Image, w: Image) {
    && |n.owner| == |w.owner| == |n.frames| == |w.frames|
    && forall f :: 0 <= f < |n.owner| ==>
      w.owner[f] == (if n.owner[f].Held? then Free else n.owner[f]) && (n.owner[f].Held? || w.frames[f] == n.frames[f])
  }

  /** A user page of d is one of the old ones, outside the range, or one of the new ones, inside. */
  lemma RollBackUser(l: Image, m: Image, d: nat, lo: nat, v: nat, hi: nat, f: nat)
    requires Good(l) && Good(m) && Grew(l, m, d) && SameEntries(l, m, d, lo, v) && v <= hi <= USERPAGES && f < |m.owner|
    requires forall u :: lo <= u < hi ==> !Present(Entry(l.frames, d, u))
    requires m.owner[f].User? && m.owner[f].d == d
    ensures f < |l.owner| && (l.owner[f].Free? || l.owner[f].Held? ==> lo <= m.owner[f].v < hi)
    ensures !(l.owner[f].Free? || l.owner[f].Held?) ==> l.owner[f] == m.owner[f] && !(lo <= m.owner[f].v < hi)
  {
    assert GrewAt(l, m, d, f) && OwnerOk(m, f) && OwnerOk(l, f);
    var u := m.owner[f].v;
    if !(lo <= u < v) {
      assert Entry(m.frames, d, u) == Entry(l.frames, d, u);
      assert PteOk(l, d, u);
    }
  }

  lemma HeldEntry(n: Image, w: Image, d: nat, u: nat)
    requires Good(n) && HeldGiven(n, w) && IsDir(n, d) && u < VPAGES
    ensures IsDir(w, d) && Entry(w.frames, d, u) == Entry(n.frames, d, u)
  {
    assert PdeOk(n, d, u / NPTENTRIES);
  }

  lemma RollBack(l: Image, m: Image, n: Image, w: Image, d: nat, lo: nat, v: nat, hi: nat)
    requires Good(l) && Good(m) && Grew(l, m, d) && SameEntries(l, m, d, lo, v) && Shrunk(m, n, d, lo, hi)
    requires v <= hi <= USERPAGES
    requires Good(n) && Good(w) && HeldGiven(n, w)
    requires forall u :: lo <= u < hi ==> !Present(Entry(l.frames, d, u))
    ensures RolledBack(l, w, d, lo, hi)
  {
    forall f | 0 <= f < |l.owner| ensures BackAt(l, w, d, f) {
      assert GrewAt(l, m, d, f) && ShrunkAt(m, n, d, lo, hi, f) && OwnerOk(l, f) && OwnerOk(m, f);
      if m.owner[f].User? && m.owner[f].d == d {
        RollBackUser(l, m, d, lo, v, hi, f);
      }
    }
    forall u | 0 <= u < VPAGES ensures Entry(w.frames, d, u) == Entry(n.frames, d, u) { HeldEntry(n, w, d, u); }
  }

  lemma NoneToGive(n: Image)
    requires |n.owner| == |n.frames| && OnlyHeld(n, -1)
    ensures HeldGiven(n, n)
  {}

  lemma GiveLast(n: Image, h: nat)
    requires Good(n) && h < |n.owner| && n.owner[h].Held? && OnlyHeld(n, h)
    ensures Good(GiveImage(n, h)) && HeldGiven(n, GiveImage(n, h)) && OnlyHeld(GiveImage(n, h), -1)
  {
    GiveKeeps(n, h);
  }

  /** The new pages have been unmapped again: allocuvm, then deallocuvm back to the old size. */
  lemma GrowThenShrink(l: Image, m: Image, n: Image, d: nat, lo: nat, hi: nat)
    requires Good(l) && OnlyHeld(l, -1) && Extended(l, m, d, lo, hi) && Shrunk(m, n, d, lo, hi) && lo <= hi <= USERPAGES
    requires Good(n) && OnlyHeld(n, -1) && forall u :: lo <= u < hi ==> !Present(Entry(l.frames, d, u))
    ensures RolledBack(l, n, d, lo, hi)
  {
    NoneToGive(n);
    RollBack(l, m, n, n, d, lo, hi, hi);
  }

  // ----- one page more -----

  /** One page has gone from the free list, and d has the tables it had. */
  ghost predicate OneTaken(m: Image, x: Image, d: nat) {
    d < |m.frames| && d < |x.frames| && x.frames[d] == m.frames[d] && |m.free| == |x.free| + 1
  }

  lemma TakenPaid(m: Image, x: Image, n: Image, d: nat, v: nat)
    requires OneTaken(m, x, d) && Paid(x, n, d, v, v + 1, 0)
    ensures Paid(m, n, d, v, v + 1, 1)
  {
    assert Tables(x, d) == Tables(m, d);
  }

  lemma TakenFew(m: Image, x: Image, d: nat, v: nat)
    requires OneTaken(m, x, d) && TooFew(x, d, v, v + 1, 0)
    ensures TooFew(m, d, v, v + 1, 1)
  {
    assert Tables(x, d) == Tables(m, d);
  }

  lemma NoneFree(m: Image, d: nat, v: nat)
    requires d < |m.frames| && |m.free| == 0
    ensures TooFew(m, d, v, v + 1, 1)
  {
    SubsetSize(Tables(m, d), Tables(m, d) + Spans(v, v + 1));
  }

  /** A page has been taken from the free list and zeroed. */
  ghost predicate Zeroed(m: Image, x: Image, d: nat, mem: nat) {
    && Good(x) && Grew(m, x, d) && SameEntries(m, x, d, 0, 0)
    && 0 < mem < |x.owner| && x.owner[mem].Held? && x.frames[mem] == ZeroPage() && OnlyHeld(x, mem) && OneTaken(m, x, d)
  }

  lemma TakenZeroed(m: Image, d: nat)
    requires Good(m) && IsDir(m, d) && |m.free| > 0 && OnlyHeld(m, -1)
    ensures m.free[0] < |m.owner|
    ensures Zeroed(m, Image(m.frames[m.free[0] := ZeroPage()], m.free[1..], m.owner[m.free[0] := Held]), d, m.free[0])
  {
    TakeKeeps(m);
    TakeGrew(m, d);
    var t, f := TakeImage(m), m.free[0];
    WriteKeeps(t, f, ZeroPage());
    var x := Image(t.frames[f := ZeroPage()], t.free, t.owner);
    forall g | 0 <= g < |m.owner| ensures GrewAt(m, x, d, g) { assert GrewAt(m, t, d, g); }
    assert IsDir(t, d);
    forall u | 0 <= u < VPAGES ensures Entry(x.frames, d, u) == Entry(m.frames, d, u) {}
  }

  lemma ZeroedMeans(m: Image, x: Image, d: nat, mem: nat, v: nat)
    requires Zeroed(m, x, d, mem) && v < VPAGES
    ensures Good(x) && IsDir(x, d) && Entry(x.frames, d, v) == Entry(m.frames, d, v)
    ensures x.owner[mem].Held? && |x.owner| == |x.frames| <= VPAGES
    ensures FailedPage(m, x, d, mem)
    ensures TooFew(x, d, v, v + 1, 0) ==> TooFew(m, d, v, v + 1, 1)
  {
    if TooFew(x, d, v, v + 1, 0) { TakenFew(m, x, d, v); }
  }

  /** A page could not be added: either none was free, or one is held and nothing else has changed. */
  ghost predicate FailedPage(m: Image, x: Image, d: nat, mem: nat) {
    && Good(x) && Grew(m, x, d) && SameEntries(m, x, d, 0, 0)
    && OnlyHeld(x, if mem == 0 then -1 else mem)
    && (mem != 0 ==> mem < |x.owner| && x.owner[mem].Held?)
  }

  lemma FailedNothing(m: Image, d: nat)
    requires Good(m) && IsDir(m, d) && OnlyHeld(m, -1)
    ensures FailedPage(m, m, d, 0)
  {
    ExtendedNothing(m, d, 0);
  }

  lemma FailedMeans(l: Image, m: Image, x: Image, d: nat, lo: nat, k: nat, hi: nat, mem: nat)
    requires Extended(l, m, d, lo, k) && FailedPage(m, x, d, mem) && k < hi && TooFew(m, d, k, k + 1, 1)
    ensures lo <= k && TooFew(l, d, lo, hi, hi - lo)
    ensures Good(x) && IsDir(x, d) && Grew(l, x, d) && SameEntries(l, x, d, lo, k)
    ensures OnlyHeld(x, if mem == 0 then -1 else mem) && (mem != 0 ==> mem < |x.owner| && x.owner[mem].Held?)
  {
    GrewTransitive(l, m, x, d);
    FewStep(l, m, d, lo, k, k + 1, hi, k - lo, 1, hi - lo);
    hide Paid, TooFew;
  }

  lemma FreshMapped(m: Image, x: Image, n: Image, d: nat, v: nat, mem: nat)
    requires Zeroed(m, x, d, mem) && mem < VPAGES && UserMapped(x, n, d, v, PteFor(mem, PTE_W + PTE_U))
    ensures Extended(m, n, d, v, v + 1) && OnlyHeld(n, -1)
  {
    GrewTransitive(m, x, n, d);
    TakenPaid(m, x, n, d, v);
  }

  // ----- the loop of allocuvm -----

  /** allocuvm before page k. */
  ghost predicate Growing(m: Image, n: Image, d: nat, lo: nat, k: nat, hi: nat) {
    && Good(m) && Extended(m, n, d, lo, k) && OnlyHeld(n, -1) && k <= hi <= USERPAGES
    && forall v :: lo <= v < hi ==> !Present(Entry(m.frames, d, v))
  }

  /** allocuvm when no page is left at page k: at most the page `mem` is held. */
  ghost predicate Stuck(m: Image, n: Image, d: nat, lo: nat, k: nat, hi: nat, mem: nat) {
    && Good(m) && IsDir(m, d) && Grew(m, n, d) && SameEntries(m, n, d, lo, k) && k <= hi <= USERPAGES
    && (forall v :: lo <= v < hi ==> !Present(Entry(m.frames, d, v)))
    && Good(n) && IsDir(n, d) && OnlyHeld(n, if mem == 0 then -1 else mem)
        && (mem != 0 ==> mem < |n.owner| && n.owner[mem].Held?)
  }

  lemma GrowingStart(m: Image, d: nat, lo: nat, hi: nat)
    requires Good(m) && IsDir(m, d) && OnlyHeld(m, -1) && lo <= hi <= USERPAGES
    requires forall v :: lo <= v < hi ==> !Present(Entry(m.frames, d, v))
    ensures Growing(m, m, d, lo, lo, hi)
  {
    ExtendedNothing(m, d, lo);
  }

  lemma GrowingMeans(m: Image, n: Image, d: nat, lo: nat, k: nat, hi: nat)
    requires Growing(m, n, d, lo, k, hi) && k < hi
    ensures Good(n) && IsDir(n, d) && OnlyHeld(n, -1) && k < USERPAGES && !Present(Entry(n.frames, d, k))
  {
    assert Entry(n.frames, d, k) == Entry(m.frames, d, k);
  }

  lemma GrowingStep(m: Image, n: Image, w: Image, d: nat, lo: nat, k: nat, hi: nat)
    requires Growing(m, n, d, lo, k, hi) && k < hi && Extended(n, w, d, k, k + 1) && OnlyHeld(w, -1)
    ensures Growing(m, w, d, lo, k + 1, hi)
  {
    ExtendedStep(m, n, w, d, lo, k);
  }

  lemma GrowingFails(m: Image, n: Image, x: Image, d: nat, lo: nat, k: nat, hi: nat, mem: nat)
    requires Growing(m, n, d, lo, k, hi) && k < hi && FailedPage(n, x, d, mem) && TooFew(n, d, k, k + 1, 1)
    ensures lo <= hi && Stuck(m, x, d, lo, k, hi, mem) && TooFew(m, d, lo, hi, hi - lo)
  {
    FailedMeans(m, n, x, d, lo, k, hi, mem);
  }

  /** How allocuvm ends: with the new pages, exactly if there are free pages enough, or rolled back. */
  ghost predicate GrowOutcome(m: Image, n: Image, d: nat, lo: nat, hi: nat, ok: bool) {
    && lo <= hi && OnlyHeld(n, -1) && (ok <==> !TooFew(m, d, lo, hi, hi - lo))
    && if ok then Extended(m, n, d, lo, hi) else RolledBack(m, n, d, lo, hi)
  }

  lemma GrowFailed(m: Image, n: Image, d: nat, lo: nat, hi: nat)
    requires lo <= hi && TooFew(m, d, lo, hi, hi - lo) && RolledBack(m, n, d, lo, hi) && OnlyHeld(n, -1)
    ensures GrowOutcome(m, n, d, lo, hi, false)
  {}

  lemma GrowingDone(m: Image, n: Image, d: nat, lo: nat, hi: nat)
    requires Growing(m, n, d, lo, hi, hi)
    ensures GrowOutcome(m, n, d, lo, hi, true)
  {
    ExtendedPaid(m, n, d, lo, hi);
  }
}
