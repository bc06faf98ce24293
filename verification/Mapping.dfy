/** Filling entries of a page directory (vm.c: walkpgdir, mappages): what changes, what stays, and how
    many free pages it takes. */
module Mapping {
  import opened Sets
  import opened KernelMemory
  import opened UserMemory

  // ----- how an operation on one directory may change the image -----

  predicate Of(o: Owner, d: nat) { (o.Table? && o.d == d) || (o.User? && o.d == d) }

  /** One page when directory d grows: what is in use stays in use by the same owner and keeps its
      contents, d itself and its tables apart. */
  predicate GrewAt(m: Image, n: Image, d: nat, f: nat)
    requires f < |m.owner| == |n.owner| == |m.frames| == |n.frames|
  {
    match m.owner[f]
    case Free => n.owner[f].Free? || n.owner[f].Held? || Of(n.owner[f], d)
    case Held => n.owner[f].Free? || n.owner[f].Held? || Of(n.owner[f], d)
    case Table(e, _) => n.owner[f] == m.owner[f] && (e != d ==> n.frames[f] == m.frames[f])
    case Dir => n.owner[f].Dir? && (f != d ==> n.frames[f] == m.frames[f])
    case _ => n.owner[f] == m.owner[f] && n.frames[f] == m.frames[f]
  }

  ghost predicate Grew(m: Image, n: Image, d: nat) {
    && |m.owner| == |n.owner| == |m.frames| == |n.frames| && IsDir(n, d)
    && forall f :: 0 <= f < |m.owner| ==> GrewAt(m, n, d, f)
  }

  lemma GrewTransitive(l: Image, m: Image, n: Image, d: nat)
    requires Grew(l, m, d) && Grew(m, n, d)
    ensures Grew(l, n, d)
  {
    forall f | 0 <= f < |l.owner| ensures GrewAt(l, n, d, f) { assert GrewAt(l, m, d, f) && GrewAt(m, n, d, f); }
  }

  lemma GrewNothing(m: Image, d: nat)
    requires Good(m) && IsDir(m, d)
    ensures Grew(m, m, d)
  {
    forall f | 0 <= f < |m.owner| ensures GrewAt(m, m, d, f) {}
  }

  /** Nothing but page f, or nothing at all for f == -1, is held. */
  ghost predicate OnlyHeld(m: Image, f: int) {
    forall g :: 0 <= g < |m.owner| && m.owner[g].Held? ==> g == f
  }

  /** The entries of d are those of m but for pages lo to hi. */
  ghost predicate SameEntries(m: Image, n: Image, d: nat, lo: int, hi: int) {
    && IsDir(m, d) && IsDir(n, d)
    && forall v :: 0 <= v < VPAGES && !(lo <= v < hi) ==> Entry(n.frames, d, v) == Entry(m.frames, d, v)
  }

  /** Other directories' entries are untouched when d grows. */
  lemma OthersEntries(m: Image, n: Image, d: nat, e: nat, v: nat)
    requires Good(m) && Grew(m, n, d) && IsDir(m, e) && e != d && v < VPAGES
    ensures IsDir(n, e) && Entry(n.frames, e, v) == Entry(m.frames, e, v)
  {
    assert GrewAt(m, n, d, e) && PdeOk(m, e, v / NPTENTRIES);
    var pde := m.frames[e][v / NPTENTRIES];
    if Present(pde) { assert GrewAt(m, n, d, Frame(pde)); }
  }

  // ----- what it costs -----

  /** The entries of directory d that name a table. */
  function Tables(m: Image, d: nat): (s: set<nat>)
    requires d < |m.frames|
  {
    set p: nat | p < NPTENTRIES && Present(m.frames[d][p])
  }

  /** The entries of a directory that pages lo to hi are under. */
  function Spans(lo: nat, hi: nat): (s: set<nat>) {
    set v: nat | lo <= v < hi :: v / NPTENTRIES
  }

  /** Free pages have gone into `pages` pages and into the tables that were missing for pages lo to hi, and
      into nothing else. */
  ghost predicate Paid(m: Image, n: Image, d: nat, lo: nat, hi: nat, pages: nat) {
    && d < |m.frames| && d < |n.frames| && Tables(n, d) == Tables(m, d) + Spans(lo, hi)
    && |m.free| + |Tables(m, d)| == |n.free| + |Tables(n, d)| + pages
  }

  /** There are fewer free pages than that takes. */
  ghost predicate TooFew(m: Image, d: nat, lo: nat, hi: nat, pages: nat) {
    d < |m.frames| && |m.free| + |Tables(m, d)| < |Tables(m, d) + Spans(lo, hi)| + pages
  }

  /** What can be paid for is not too dear. */
  lemma PaidEnough(m: Image, n: Image, d: nat, lo: nat, hi: nat, pages: nat)
    requires Paid(m, n, d, lo, hi, pages)
    ensures !TooFew(m, d, lo, hi, pages)
  {}

  lemma PaidStep(l: Image, m: Image, n: Image, d: nat, lo: nat, v: nat, hi: nat, pages: nat, more: nat)
    requires Paid(l, m, d, lo, v, pages) && Paid(m, n, d, v, hi, more) && lo <= v <= hi
    ensures Paid(l, n, d, lo, hi, pages + more)
  {
    assert Spans(lo, hi) == Spans(lo, v) + Spans(v, hi);
  }

  lemma FewStep(l: Image, m: Image, d: nat, lo: nat, v: nat, next: nat, hi: nat, pages: nat, more: nat, all: nat)
    requires Paid(l, m, d, lo, v, pages) && TooFew(m, d, v, next, more) && lo <= v <= next <= hi && pages + more <= all
    ensures TooFew(l, d, lo, hi, all)
  {
    assert Spans(lo, hi) == Spans(lo, v) + Spans(v, next) + Spans(next, hi);
    SubsetSize(Tables(m, d) + Spans(v, next), Tables(l, d) + Spans(lo, hi));
  }

  lemma PaidNothing(m: Image, d: nat, lo: nat)
    requires d < |m.frames|
    ensures Paid(m, m, d, lo, lo, 0)
  {
    assert Spans(lo, lo) == {};
  }

  lemma OneSpan(v: nat)
    ensures Spans(v, v + 1) == {v / NPTENTRIES}
  {
    assert v / NPTENTRIES in Spans(v, v + 1);
  }

  /** A directory that has not been written to, with one page less on the free list or as many. */
  lemma PaidSame(m: Image, n: Image, w: Image, d: nat, lo: nat, hi: nat, pages: nat)
    requires Paid(m, n, d, lo, hi, pages) && d < |w.frames| && w.frames[d] == n.frames[d] && |w.free| == |n.free|
    ensures Paid(m, w, d, lo, hi, pages)
  {
    assert Tables(w, d) == Tables(n, d);
  }

  // ----- walking -----

  lemma TakeGrew(m: Image, d: nat)
    requires Good(m) && |m.free| > 0 && IsDir(m, d)
    ensures m.free[0] < |m.owner| && Grew(m, TakeImage(m), d)
    ensures OnlyHeld(m, -1) ==> OnlyHeld(TakeImage(m), m.free[0])
  {
    TakeKeeps(m);
    forall f | 0 <= f < |m.owner| ensures GrewAt(m, TakeImage(m), d, f) {}
  }

  /** The page that was free is now the table for page v: nothing that can be looked up has changed. */
  function WalkImage(m: Image, d: nat, v: nat): (n: Image)
    requires |m.free| > 0 && m.free[0] < |m.frames| == |m.owner| <= VPAGES && d < |m.frames| && v < VPAGES
  {
    var t := m.free[0];
    TableImage(Image(m.frames[t := ZeroPage()], m.free[1..], m.owner[t := Held]), d, v / NPTENTRIES, t)
  }

  lemma WalkKeeps(m: Image, d: nat, v: nat)
    requires Good(m) && IsDir(m, d) && v < VPAGES && !Present(m.frames[d][v / NPTENTRIES]) && |m.free| > 0
    ensures m.free[0] < |m.owner|
    ensures Good(WalkImage(m, d, v)) && Grew(m, WalkImage(m, d, v), d) && HasTable(WalkImage(m, d, v), d, v)
    ensures SameEntries(m, WalkImage(m, d, v), d, 0, 0)
    ensures forall f: int :: OnlyHeld(m, f) ==> OnlyHeld(WalkImage(m, d, v), f)
  {
    TakeKeeps(m);
    var a, t := TakeImage(m), m.free[0];
    WriteKeeps(a, t, ZeroPage());
    var b := Image(a.frames[t := ZeroPage()], a.free, a.owner);
    TableKeeps(b, d, v / NPTENTRIES, t);
    MakePteMeans(t, PTE_P + PTE_W + PTE_U);
    var n := WalkImage(m, d, v);
    assert n == TableImage(b, d, v / NPTENTRIES, t);
    assert m.owner[t].Free? && t != d;
    hide Good, Entry, MakePte;
    forall f | 0 <= f < |m.owner| ensures GrewAt(m, n, d, f) {}
    assert IsDir(a, d) && IsDir(b, d);
    forall u | 0 <= u < VPAGES ensures Entry(n.frames, d, u) == Entry(m.frames, d, u) {}
  }

  /** The walk costs a page exactly if there is no table. */
  lemma WalkPaid(m: Image, d: nat, v: nat)
    requires Good(m) && IsDir(m, d) && v < VPAGES && !Present(m.frames[d][v / NPTENTRIES])
    ensures |m.free| == 0 <==> TooFew(m, d, v, v + 1, 0)
    ensures |m.free| > 0 ==> m.free[0] < |m.owner| && Paid(m, WalkImage(m, d, v), d, v, v + 1, 0)
  {
    OneSpan(v);
    assert v / NPTENTRIES !in Tables(m, d);
    if |m.free| > 0 {
      var t, n := m.free[0], WalkImage(m, d, v);
      TakeKeeps(m);
      assert t != d;
      MakePteMeans(t, PTE_P + PTE_W + PTE_U);
      assert n.frames[d] == m.frames[d][v / NPTENTRIES := MakePte(t, PTE_P + PTE_W + PTE_U)];
      hide MakePte, WalkImage, Good;
      assert Tables(n, d) == Tables(m, d) + {v / NPTENTRIES};
    }
  }

  lemma WalkFree(m: Image, d: nat, v: nat)
    requires IsDir(m, d) && v < VPAGES && Present(m.frames[d][v / NPTENTRIES])
    ensures Paid(m, m, d, v, v + 1, 0)
  {
    OneSpan(v);
    assert v / NPTENTRIES in Tables(m, d);
    assert Tables(m, d) == Tables(m, d) + Spans(v, v + 1);
  }

  /** Whether the walk has changed anything: what the page being mapped sees of it. */
  lemma WalkHeld(m: Image, d: nat, v: nat, f: nat)
    requires Good(m) && IsDir(m, d) && v < VPAGES && !Present(m.frames[d][v / NPTENTRIES]) && |m.free| > 0
    requires f < |m.owner| && m.owner[f].Held?
    ensures m.free[0] < |m.owner| && WalkImage(m, d, v).owner[f].Held? && WalkImage(m, d, v).frames[f] == m.frames[f]
  {
    TakeKeeps(m);
    assert m.free[0] != f && d != f;
  }

  /** The table for page v is there, and nothing that can be looked up has changed. */
  ghost predicate Walked(m: Image, l: Image, d: nat, v: nat) {
    && Good(m) && IsDir(m, d)
    && Good(l) && Grew(m, l, d) && HasTable(l, d, v) && SameEntries(m, l, d, 0, 0)
    && (forall f: int :: OnlyHeld(m, f) ==> OnlyHeld(l, f))
    && (forall f :: 0 <= f < |m.owner| && m.owner[f].Held? ==> l.owner[f].Held? && l.frames[f] == m.frames[f])
    && (Present(Entry(m.frames, d, v)) ==> l == m) && Paid(m, l, d, v, v + 1, 0)
  }

  lemma WalkedMeans(m: Image, l: Image, d: nat, v: nat)
    requires Walked(m, l, d, v)
    ensures Good(l) && Grew(m, l, d) && HasTable(l, d, v) && SameEntries(m, l, d, 0, 0)
    ensures forall f: int :: OnlyHeld(m, f) ==> OnlyHeld(l, f)
    ensures |m.owner| == |l.owner| == |l.frames| == |m.frames|
    ensures forall f :: 0 <= f < |m.owner| && m.owner[f].Held? ==> l.owner[f].Held? && l.frames[f] == m.frames[f]
    ensures var t := Frame(l.frames[d][v / NPTENTRIES]);
      t < |l.frames| && l.frames[t][v % NPTENTRIES] == Entry(m.frames, d, v)
    ensures Present(Entry(m.frames, d, v)) ==> l == m
    ensures Paid(m, l, d, v, v + 1, 0)
  {
    assert Entry(l.frames, d, v) == Entry(m.frames, d, v);
  }

  lemma WalkedNew(m: Image, d: nat, v: nat)
    requires Good(m) && IsDir(m, d) && v < VPAGES && !Present(m.frames[d][v / NPTENTRIES]) && |m.free| > 0
    ensures m.free[0] < |m.owner| && Walked(m, WalkImage(m, d, v), d, v)
  {
    WalkKeeps(m, d, v);
    WalkPaid(m, d, v);
    hide Paid;
    forall f | 0 <= f < |m.owner| && m.owner[f].Held?
      ensures WalkImage(m, d, v).owner[f].Held? && WalkImage(m, d, v).frames[f] == m.frames[f]
    {
      WalkHeld(m, d, v, f);
    }
  }

  lemma WalkedOld(m: Image, d: nat, v: nat)
    requires Good(m) && IsDir(m, d) && v < VPAGES && Present(m.frames[d][v / NPTENTRIES])
    ensures Walked(m, m, d, v)
  {
    WalkFree(m, d, v);
    hide Paid;
    GrewNothing(m, d);
    assert PdeOk(m, d, v / NPTENTRIES);
  }

  // ----- setting one entry -----

  /** Only the table of page v is written to. */
  lemma SetGrew(m: Image, n: Image, d: nat, v: nat, w: Word)
    requires Good(m) && HasTable(m, d, v) && n.frames == EntryFrames(m.frames, d, v, w) && |n.owner| == |m.owner|
    requires forall f :: 0 <= f < |m.owner| ==>
      n.owner[f] == m.owner[f] || (m.owner[f].Held? && n.owner[f] == User(d, v))
    ensures Grew(m, n, d)
    ensures forall f :: 0 <= f < |m.owner| && !m.owner[f].Table? ==> n.frames[f] == m.frames[f]
    ensures n.frames[d] == m.frames[d]
  {
    assert PdeOk(m, d, v / NPTENTRIES);
    forall f | 0 <= f < |m.owner| ensures GrewAt(m, n, d, f) {}
  }

  /** A user entry is filled with a held page. */
  lemma UserSet(m: Image, d: nat, v: nat, w: Word)
    requires Good(m) && HasTable(m, d, v) && v < USERPAGES && !Present(Entry(m.frames, d, v))
    requires Present(w) && Frame(w) < |m.owner| && m.owner[Frame(w)].Held?
    ensures var n := Image(EntryFrames(m.frames, d, v, w), m.free, m.owner[Frame(w) := User(d, v)]);
      && Good(n) && Grew(m, n, d) && SameEntries(m, n, d, v, v + 1) && Entry(n.frames, d, v) == w
      && n.frames[Frame(w)] == m.frames[Frame(w)] && n.frames[d] == m.frames[d]
      && (OnlyHeld(m, Frame(w)) ==> OnlyHeld(n, -1))
  {
    var owner := m.owner[Frame(w) := User(d, v)];
    var n := Image(EntryFrames(m.frames, d, v, w), m.free, owner);
    SetKeeps(m, d, v, w, owner);
    SetGrew(m, n, d, v, w);
    EntryAfterSet(m, d, v, w, d, v);
    forall u | 0 <= u < VPAGES && u != v
      ensures Entry(n.frames, d, u) == Entry(m.frames, d, u)
    {
      EntryAfterSet(m, d, v, w, d, u);
    }
  }

  /** A kernel entry is filled. */
  lemma KernelSet(m: Image, d: nat, v: nat, w: Word)
    requires Good(m) && HasTable(m, d, v) && v >= USERPAGES
    ensures var n := Image(EntryFrames(m.frames, d, v, w), m.free, m.owner);
      Good(n) && Grew(m, n, d) && SameEntries(m, n, d, v, v + 1) && Entry(n.frames, d, v) == w
        && n.frames[d] == m.frames[d]
  {
    var n := Image(EntryFrames(m.frames, d, v, w), m.free, m.owner);
    SetKeeps(m, d, v, w, m.owner);
    SetGrew(m, n, d, v, w);
    EntryAfterSet(m, d, v, w, d, v);
    forall u | 0 <= u < VPAGES && u != v
      ensures Entry(n.frames, d, u) == Entry(m.frames, d, u)
    {
      EntryAfterSet(m, d, v, w, d, u);
    }
  }

  /** pa | perm | PTE_P, for a page-aligned pa. */
  function PteFor(frame: nat, perm: nat): (w: Word)
    requires frame < VPAGES && perm < PGSIZE
    ensures Present(w) && Frame(w) == frame && Flags(w) == perm - perm % 2 + 1
  {
    MakePteMeans(frame, perm - perm % 2 + 1);
    MakePte(frame, perm - perm % 2 + 1)
  }

  /** A held page has been mapped at user page v of d, and nothing else has changed. */
  ghost predicate UserMapped(m: Image, n: Image, d: nat, v: nat, w: Word) {
    && Good(n) && Grew(m, n, d) && SameEntries(m, n, d, v, v + 1) && v < USERPAGES && Entry(n.frames, d, v) == w
    && Frame(w) < |m.owner| && n.frames[Frame(w)] == m.frames[Frame(w)] && n.owner[Frame(w)] == User(d, v)
    && (OnlyHeld(m, Frame(w)) ==> OnlyHeld(n, -1)) && Paid(m, n, d, v, v + 1, 0)
  }

  /** Pages lo to hi of d are mapped to physical pages from `frame` on. */
  ghost predicate KernelEntries(n: Image, d: nat, lo: nat, hi: nat, frame: nat, perm: nat)
    requires frame + (hi - lo) <= VPAGES && perm < PGSIZE
  {
    d < |n.frames| && hi <= VPAGES
    && forall v :: lo <= v < hi ==> Entry(n.frames, d, v) == PteFor(frame + (v - lo), perm)
  }

  /** Kernel pages lo to hi of d have been mapped to physical pages from `frame` on. */
  ghost predicate KernelMapped(m: Image, n: Image, d: nat, lo: nat, hi: nat, frame: nat, perm: nat)
    requires frame + (hi - lo) <= VPAGES && perm < PGSIZE
  {
    && Good(n) && Grew(m, n, d) && SameEntries(m, n, d, lo, hi) && USERPAGES <= lo && hi <= VPAGES
    && KernelEntries(n, d, lo, hi, frame, perm)
    && (OnlyHeld(m, -1) ==> OnlyHeld(n, -1)) && lo <= hi && Paid(m, n, d, lo, hi, 0)
  }

  lemma KernelEntriesStep(m: Image, n: Image, d: nat, lo: nat, v: nat, next: nat, frame: nat, perm: nat)
    requires lo <= v < VPAGES && next == v + 1 && frame + (next - lo) <= VPAGES && perm < PGSIZE
    requires KernelEntries(m, d, lo, v, frame, perm) && KernelEntries(n, d, v, next, frame + (v - lo), perm)
    requires SameEntries(m, n, d, v, next)
    ensures KernelEntries(n, d, lo, next, frame, perm)
  {
    hide PteFor, Entry;
    forall u | lo <= u < next ensures Entry(n.frames, d, u) == PteFor(frame + (u - lo), perm) {
      if u < v { assert Entry(n.frames, d, u) == Entry(m.frames, d, u); }
    }
  }

  lemma SameEntriesStep(l: Image, m: Image, n: Image, d: nat, lo: nat, v: nat, next: nat)
    requires SameEntries(l, m, d, lo, v) && SameEntries(m, n, d, v, next) && lo <= v <= next
    ensures SameEntries(l, n, d, lo, next)
  {}

  lemma KernelMappedStep(l: Image, m: Image, n: Image, d: nat, lo: nat, v: nat, frame: nat, perm: nat)
    requires lo <= v < VPAGES && frame + (v + 1 - lo) <= VPAGES && perm < PGSIZE
    requires KernelMapped(l, m, d, lo, v, frame, perm) && KernelMapped(m, n, d, v, v + 1, frame + (v - lo), perm)
    ensures KernelMapped(l, n, d, lo, v + 1, frame, perm)
  {
    hide Entry, Good, OnlyHeld;
    GrewTransitive(l, m, n, d);
    PaidStep(l, m, n, d, lo, v, v + 1, 0, 0);
    KernelEntriesStep(m, n, d, lo, v, v + 1, frame, perm);
    SameEntriesStep(l, m, n, d, lo, v, v + 1);
    hide Grew, Paid, KernelEntries, SameEntries;
  }

  lemma KernelMappedNothing(m: Image, d: nat, lo: nat, frame: nat, perm: nat)
    requires Good(m) && IsDir(m, d) && frame <= VPAGES && perm < PGSIZE && USERPAGES <= lo <= VPAGES
    ensures KernelMapped(m, m, d, lo, lo, frame, perm)
  {
    PaidNothing(m, d, lo);
    GrewNothing(m, d);
  }

  lemma MapUser(m: Image, l: Image, d: nat, v: nat, w: Word)
    requires Good(m) && IsDir(m, d) && v < USERPAGES && !Present(Entry(m.frames, d, v))
    requires Good(l) && Grew(m, l, d) && HasTable(l, d, v) && SameEntries(m, l, d, 0, 0)
    requires forall f: int :: OnlyHeld(m, f) ==> OnlyHeld(l, f)
    requires Paid(m, l, d, v, v + 1, 0)
    requires Present(w) && Frame(w) < |m.owner| && m.owner[Frame(w)].Held? && l.owner[Frame(w)].Held?
    requires l.frames[Frame(w)] == m.frames[Frame(w)]
    ensures UserMapped(m, Image(EntryFrames(l.frames, d, v, w), l.free, l.owner[Frame(w) := User(d, v)]), d, v, w)
  {
    UserSet(l, d, v, w);
    var n := Image(EntryFrames(l.frames, d, v, w), l.free, l.owner[Frame(w) := User(d, v)]);
    GrewTransitive(m, l, n, d);
    PaidSame(m, l, n, d, v, v + 1, 0);
    hide Paid;
  }

  lemma MapKernel(m: Image, l: Image, d: nat, v: nat, frame: nat, perm: nat)
    requires Good(m) && IsDir(m, d) && USERPAGES <= v < VPAGES && frame < VPAGES && perm < PGSIZE
    requires Good(l) && Grew(m, l, d) && HasTable(l, d, v) && SameEntries(m, l, d, 0, 0)
    requires forall f: int :: OnlyHeld(m, f) ==> OnlyHeld(l, f)
    requires Paid(m, l, d, v, v + 1, 0)
    ensures KernelMapped(m, Image(EntryFrames(l.frames, d, v, PteFor(frame, perm)), l.free, l.owner),
                         d, v, v + 1, frame, perm)
  {
    KernelSet(l, d, v, PteFor(frame, perm));
    var n := Image(EntryFrames(l.frames, d, v, PteFor(frame, perm)), l.free, l.owner);
    GrewTransitive(m, l, n, d);
    PaidSame(m, l, n, d, v, v + 1, 0);
    hide Paid;
  }

  // ----- mapping a range -----

  /** How mappages ends: done, no page for a table, or the panic "remap". */
  datatype MapResult = Mapped | NoMemory | Remap

  /** The page after the one that the last of `size` bytes from va is on. */
  function EndPage(va: nat, size: nat): (e: nat)
    requires size > 0
    ensures e > va / PGSIZE
  {
    (va + size - 1) / PGSIZE + 1
  }

  /** The loop variables of mappages: page k is mapped to page pf + (k - lo). */
  ghost predicate Addresses(a: Uint, p: Uint, last: Uint, lo: nat, k: nat, hi: nat, pf: nat) {
    && lo <= k < hi <= VPAGES && pf + (hi - lo) <= VPAGES
    && a == k * PGSIZE && p == (pf + (k - lo)) * PGSIZE && last == (hi - 1) * PGSIZE
  }

  lemma AddressesStart(va: Uint, size: Uint, pa: Uint)
    requires 0 < size && va + size <= UINT_LIMIT && pa % PGSIZE == 0
    requires pa / PGSIZE + (EndPage(va, size) - va / PGSIZE) <= VPAGES
    ensures Addresses(RoundDown(va), pa, RoundDown((va + size - 1) % UINT_LIMIT), va / PGSIZE, va / PGSIZE,
      EndPage(va, size), pa / PGSIZE)
  {}

  lemma AddressesMean(a: Uint, p: Uint, last: Uint, lo: nat, k: nat, hi: nat, pf: nat)
    requires Addresses(a, p, last, lo, k, hi, pf)
    ensures lo <= k < hi <= VPAGES && pf + (hi - lo) <= VPAGES && a / PGSIZE == k && p / PGSIZE == pf + (k - lo)
    ensures (a == last <==> k + 1 == hi)
  {}

  /** Not at the last page, the next addresses do not wrap around. */
  lemma AddressesNext(a: Uint, p: Uint, last: Uint, lo: nat, k: nat, hi: nat, pf: nat)
    requires Addresses(a, p, last, lo, k, hi, pf) && a != last
    ensures Addresses((a + PGSIZE) % UINT_LIMIT, (p + PGSIZE) % UINT_LIMIT, last, lo, k + 1, hi, pf)
  {}

  /** mappages before page k: one user page is all or nothing, kernel pages are mapped up to k. */
  ghost predicate MapProgress(m: Image, n: Image, d: nat, lo: nat, k: nat, hi: nat, pf: nat, perm: nat) {
    && lo <= k < hi <= VPAGES && pf + (hi - lo) <= VPAGES && perm < PGSIZE
    && Good(n) && IsDir(n, d) && IsDir(m, d)
    && (forall v :: lo <= v < hi ==> !Present(Entry(m.frames, d, v)))
    && if lo < USERPAGES then n == m && k == lo && hi == lo + 1 && pf < |m.owner| && m.owner[pf].Held?
       else KernelMapped(m, n, d, lo, k, pf, perm)
  }

  lemma MapStart(m: Image, d: nat, lo: nat, hi: nat, pf: nat, perm: nat)
    requires Good(m) && IsDir(m, d) && lo < hi <= VPAGES && pf + (hi - lo) <= VPAGES && perm < PGSIZE
    requires forall v :: lo <= v < hi ==> !Present(Entry(m.frames, d, v))
    requires lo >= USERPAGES || (hi == lo + 1 && pf < |m.owner| && m.owner[pf].Held?)
    ensures MapProgress(m, m, d, lo, lo, hi, pf, perm)
  {
    if lo >= USERPAGES { KernelMappedNothing(m, d, lo, pf, perm); }
  }

  lemma MapProgressMeans(m: Image, n: Image, d: nat, lo: nat, k: nat, hi: nat, pf: nat, perm: nat)
    requires MapProgress(m, n, d, lo, k, hi, pf, perm)
    ensures lo <= k < hi <= VPAGES && pf + (hi - lo) <= VPAGES && perm < PGSIZE
    ensures Good(n) && IsDir(n, d) && !Present(Entry(n.frames, d, k))
    ensures lo < USERPAGES ==> n == m && k == lo && pf < |n.owner| && n.owner[pf].Held?
    ensures lo >= USERPAGES ==> k >= USERPAGES && Grew(m, n, d) && (OnlyHeld(m, -1) ==> OnlyHeld(n, -1))
  {}

  /** What mappages does with pages lo to hi: all mapped; or too few pages for the tables, and then a user
      page is not mapped and all else is as it was. */
  ghost predicate MapOutcome(m: Image, n: Image, d: nat, lo: nat, hi: nat, frame: nat, perm: nat, r: MapResult)
    requires lo < hi && frame + (hi - lo) <= VPAGES && perm < PGSIZE
  {
    match r
    case Mapped =>
      if lo < USERPAGES then UserMapped(m, n, d, lo, PteFor(frame, perm))
        else KernelMapped(m, n, d, lo, hi, frame, perm)
    case NoMemory =>
      && TooFew(m, d, lo, hi, 0)
      && if lo < USERPAGES then n == m else Good(n) && Grew(m, n, d) && (OnlyHeld(m, -1) ==> OnlyHeld(n, -1))
    case Remap => false
  }

  lemma SameFew(m: Image, d: nat, lo: nat, hi: nat)
    requires TooFew(m, d, lo, lo + 1, 0) && hi == lo + 1
    ensures TooFew(m, d, lo, hi, 0)
  {}

  lemma KernelFew(m: Image, n: Image, d: nat, lo: nat, k: nat, hi: nat, pf: nat, perm: nat)
    requires lo <= k < hi && pf + (hi - lo) <= VPAGES && perm < PGSIZE
    requires KernelMapped(m, n, d, lo, k, pf, perm) && TooFew(n, d, k, k + 1, 0)
    ensures TooFew(m, d, lo, hi, 0)
  {
    FewStep(m, n, d, lo, k, k + 1, hi, 0, 0, 0);
  }

  lemma KernelProgress(m: Image, n: Image, w: Image, d: nat, lo: nat, k: nat, hi: nat, pf: nat, perm: nat, r: MapResult)
    requires MapProgress(m, n, d, lo, k, hi, pf, perm) && lo >= USERPAGES
    requires r.Mapped? ==> KernelMapped(n, w, d, k, k + 1, pf + (k - lo), perm)
    requires !r.Mapped? ==> w == n && r.NoMemory? && TooFew(n, d, k, k + 1, 0)
    ensures r.Mapped? ==> KernelMapped(m, w, d, lo, k + 1, pf, perm)
    ensures !r.Mapped? || k + 1 == hi ==> MapOutcome(m, w, d, lo, hi, pf, perm, r)
    ensures r.Mapped? && k + 1 < hi ==> MapProgress(m, w, d, lo, k + 1, hi, pf, perm)
  {
    if r.Mapped? {
      KernelMappedStep(m, n, w, d, lo, k, pf, perm);
    } else {
      KernelFew(m, n, d, lo, k, hi, pf, perm);
    }
    hide Grew, OnlyHeld, Entry, UserMapped, SameEntries, Paid, TooFew, Good, PteFor;
  }

  lemma MapProgressStep(m: Image, n: Image, w: Image, d: nat, lo: nat, k: nat, hi: nat, pf: nat, perm: nat,
                        r: MapResult)
    requires MapProgress(m, n, d, lo, k, hi, pf, perm)
    requires r.Mapped? && k < USERPAGES ==> UserMapped(n, w, d, k, PteFor(pf + (k - lo), perm))
    requires r.Mapped? && k >= USERPAGES ==> KernelMapped(n, w, d, k, k + 1, pf + (k - lo), perm)
    requires r.NoMemory? ==> TooFew(n, d, k, k + 1, 0)
    requires !r.Mapped? ==> w == n && r.NoMemory?
    ensures !r.Mapped? || k + 1 == hi ==> MapOutcome(m, w, d, lo, hi, pf, perm, r)
    ensures r.Mapped? && k + 1 < hi ==> MapProgress(m, w, d, lo, k + 1, hi, pf, perm)
  {
    if lo < USERPAGES {
      if r.NoMemory? { SameFew(m, d, lo, hi); }
    } else {
      KernelProgress(m, n, w, d, lo, k, hi, pf, perm, r);
    }
    hide Good, Grew, OnlyHeld, Entry, UserMapped, KernelMapped, Paid, TooFew;
  }
}
