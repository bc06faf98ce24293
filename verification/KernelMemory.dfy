/** Physical pages and two-level page tables (kalloc.c, vm.c): what page-table words say, whose every
    page is, and what one change of a word or one page taken or given back does to that. */
module KernelMemory {

  const NPTENTRIES: nat := 1024
  const USERPAGES: nat := 0x8_0000      // pages below KERNBASE
  const VPAGES: nat := 0x10_0000        // pages of the address space
  const PGSIZE: nat := 4096

  const PTE_P: nat := 1
  const PTE_W: nat := 2
  const PTE_U: nat := 4

  type Word = x: int | 0 <= x < 0x1_0000_0000
  type Page = p: seq<Word> | |p| == NPTENTRIES witness seq(NPTENTRIES, _ => 0)

  function ZeroPage(): (p: Page)
    ensures forall k :: 0 <= k < NPTENTRIES ==> p[k] == 0
  {
    seq(NPTENTRIES, _ => 0)
  }

  /** P2V of a page, as a pointer in a word. */
  function Pointer(f: nat): (w: Word)
    requires f < USERPAGES
    ensures w != 0
  {
    (USERPAGES + f) * PGSIZE
  }

  /** V2P of such a pointer. */
  function PageAtPointer(w: Word): (f: int) { w / PGSIZE - USERPAGES }

  lemma PointsTo(f: nat)
    requires f < USERPAGES
    ensures PageAtPointer(Pointer(f)) == f
  {}

  /** kmem.freelist: the address of the first page of the list. */
  function Head(free: seq<nat>): (w: Word) {
    if |free| == 0 || free[0] >= USERPAGES then 0 else Pointer(free[0])
  }

  /** What kfree leaves in a page: junk, and the old head of the list in its first word. */
  function Junk(next: Word): (p: Page)
    ensures p[0] == next
  {
    seq(NPTENTRIES, _ => 0x0101_0101)[0 := next]
  }

  // ----- page-table words -----

  predicate Present(w: Word) { w % 2 == 1 }

  /** PTE_ADDR, as a page number. */
  function Frame(w: Word): nat { w / PGSIZE }

  /** PTE_FLAGS. */
  function Flags(w: Word): nat { w % PGSIZE }

  function MakePte(frame: nat, flags: nat): (w: Word)
    requires frame < VPAGES && flags < PGSIZE
  {
    frame * PGSIZE + flags
  }

  lemma MakePteMeans(frame: nat, flags: nat)
    requires frame < VPAGES && flags < PGSIZE
    ensures Frame(MakePte(frame, flags)) == frame && Flags(MakePte(frame, flags)) == flags
    ensures Present(MakePte(frame, flags)) <==> flags % 2 == 1
  {}

  // ----- whose a page is -----

  /** A free page; one that has been taken and not yet been put to use; a page directory; the table for
      entry p of directory d; the user page that directory d maps at page v; any other page. */
  datatype Owner = Free | Held | Dir | Table(d: nat, p: nat) | User(d: nat, v: nat) | Other

  datatype Image = Image(frames: seq<Page>, free: seq<nat>, owner: seq<Owner>)

  /** The page-table word for page v in directory d, 0 where there is no table. */
  function Entry(frames: seq<Page>, d: nat, v: nat): (w: Word)
    requires d < |frames| && v < VPAGES
  {
    var pde := frames[d][v / NPTENTRIES];
    if Present(pde) && Frame(pde) < |frames| then frames[Frame(pde)][v % NPTENTRIES] else 0
  }

  predicate IsDir(m: Image, d: nat) { d < |m.frames| && d < |m.owner| && m.owner[d].Dir? }

  /** r->next of the i-th page of the list. */
  function Next(free: seq<nat>, i: nat): (w: Word)
    requires i < |free| && (i + 1 < |free| ==> free[i + 1] < USERPAGES)
  {
    if i + 1 < |free| then Pointer(free[i + 1]) else 0
  }

  /** The first word of the i-th page of the list points to the next one. */
  predicate LinkOk(m: Image, i: nat)
    requires i < |m.free| && forall j :: 0 <= j < |m.free| ==> m.free[j] < USERPAGES
  {
    m.free[i] < |m.frames| && m.frames[m.free[i]][0] == Next(m.free, i)
  }

  /** The free list holds exactly the free pages, each once, never page 0, and is linked through them. */
  ghost predicate FreeOk(m: Image) {
    && |m.owner| <= USERPAGES
    && (forall i :: 0 <= i < |m.free| ==> 0 < m.free[i] < |m.owner| && m.owner[m.free[i]].Free?)
    && (forall i :: 0 <= i < |m.free| ==> LinkOk(m, i))
    && (forall i, j :: 0 <= i < j < |m.free| ==> m.free[i] != m.free[j])
    && (forall f :: 0 <= f < |m.owner| && m.owner[f].Free? ==> f in m.free)
  }

  /** A directory's entry names its own table, and forbids nothing that the table allows. */
  predicate PdeOk(m: Image, d: nat, p: nat)
    requires |m.frames| == |m.owner| && d < |m.frames| && p < NPTENTRIES
  {
    Present(m.frames[d][p]) ==>
      && Frame(m.frames[d][p]) < |m.owner| && m.owner[Frame(m.frames[d][p])] == Table(d, p)
      && Flags(m.frames[d][p]) == PTE_P + PTE_W + PTE_U
  }

  /** A user entry names its own page. */
  predicate PteOk(m: Image, d: nat, v: nat)
    requires |m.frames| == |m.owner| && d < |m.frames| && v < USERPAGES
  {
    Present(Entry(m.frames, d, v)) ==>
      Frame(Entry(m.frames, d, v)) < |m.owner| && m.owner[Frame(Entry(m.frames, d, v))] == User(d, v)
  }

  /** Every table and user page is named where its owner says. */
  predicate OwnerOk(m: Image, f: nat)
    requires |m.frames| == |m.owner| && f < |m.owner|
  {
    match m.owner[f]
    case Table(d, p) => IsDir(m, d) && p < NPTENTRIES && Present(m.frames[d][p]) && Frame(m.frames[d][p]) == f
    case User(d, v) => IsDir(m, d) && v < USERPAGES && Present(Entry(m.frames, d, v))
      && Frame(Entry(m.frames, d, v)) == f
    case _ => true
  }

  /** Every page is free or belongs to one place of one page directory, or is outside the game. */
  ghost predicate Good(m: Image) {
    && 0 < |m.frames| == |m.owner| <= USERPAGES && m.owner[0] == Other
    && FreeOk(m)
    && (forall d, p :: IsDir(m, d) && 0 <= p < NPTENTRIES ==> PdeOk(m, d, p))
    && (forall d, v :: IsDir(m, d) && 0 <= v < USERPAGES ==> PteOk(m, d, v))
    && (forall f :: 0 <= f < |m.owner| ==> OwnerOk(m, f))
  }

  /** How often f is in s. */
  function Times(s: seq<nat>, f: nat): (n: nat) { multiset(s)[f] }

  /** A page is on the free list once if it is free, and not at all otherwise. */
  lemma OnceFree(m: Image, f: nat)
    requires Good(m)
    ensures Times(m.free, f) == if f < |m.owner| && m.owner[f].Free? then 1 else 0
  {
    Occurrences(m.free, f);
  }

  lemma {:induction false} Occurrences(s: seq<nat>, f: nat)
    requires forall i, j :: 0 <= i < j < |s| ==> s[i] != s[j]
    ensures Times(s, f) == if f in s then 1 else 0
  {
    if |s| > 0 {
      Occurrences(s[1..], f);
      assert s == [s[0]] + s[1..];
    }
  }

  /** The free list, the directories, the tables and the user pages have no page in common, and each page
      is named at one place at most. */
  lemma NamedOnce(m: Image, d: nat, v: nat, e: nat, u: nat)
    requires Good(m) && IsDir(m, d) && IsDir(m, e) && v < USERPAGES && u < USERPAGES
    requires Present(Entry(m.frames, d, v))
    ensures Frame(Entry(m.frames, d, v)) !in m.free && !IsDir(m, Frame(Entry(m.frames, d, v)))
    ensures Present(Entry(m.frames, e, u)) && Frame(Entry(m.frames, e, u)) == Frame(Entry(m.frames, d, v)) ==>
      d == e && u == v
    ensures Present(m.frames[e][u / NPTENTRIES]) ==>
      && Frame(m.frames[e][u / NPTENTRIES]) != Frame(Entry(m.frames, d, v))
          && Frame(m.frames[e][u / NPTENTRIES]) !in m.free
      && (Frame(m.frames[e][u / NPTENTRIES]) == Frame(m.frames[d][v / NPTENTRIES]) ==>
          d == e && u / NPTENTRIES == v / NPTENTRIES)
  {
    assert PteOk(m, d, v) && PteOk(m, e, u) && PdeOk(m, d, v / NPTENTRIES) && PdeOk(m, e, u / NPTENTRIES);
  }

  /** Changes that concern no free page leave the free list as it is. */
  lemma FreeKeeps(m: Image, n: Image)
    requires FreeOk(m) && |m.frames| == |m.owner| == |n.frames| == |n.owner| && n.free == m.free
    requires forall f :: 0 <= f < |m.owner| ==> (n.owner[f].Free? <==> m.owner[f].Free?)
    requires forall f :: 0 <= f < |m.owner| && m.owner[f].Free? ==> n.frames[f] == m.frames[f]
    ensures FreeOk(n)
  {
    forall i | 0 <= i < |n.free| ensures LinkOk(n, i) { assert LinkOk(m, i) && m.owner[m.free[i]].Free?; }
  }

  // ----- what the processor makes of it -----

  /** Where the processor finds an address, and what may be done there: bits 31 to 22 select the directory
      entry and bits 21 to 12 the table entry; in each, bit 0 is set if it is valid, bit 1 if it allows to
      write and bit 2 if it allows the user in, and it takes both of them. */
  datatype Access = NoPage | Page(frame: nat, write: bool, user: bool)

  function Mmu(frames: seq<Page>, d: nat, a: nat): (r: Access)
    requires d < |frames| && a < 0x1_0000_0000
  {
    var pde := frames[d][a / 0x40_0000];
    if pde % 2 == 0 || pde / 0x1000 >= |frames| then NoPage
    else
      var pte := frames[pde / 0x1000][a / 0x1000 % 0x400];
      if pte % 2 == 0 then NoPage
      else Page(pte / 0x1000, pde / 2 % 2 == 1 && pte / 2 % 2 == 1, pde / 4 % 2 == 1 && pte / 4 % 2 == 1)
  }

  /** In memory that is in order, the table entry alone decides. */
  lemma MmuIs(m: Image, d: nat, a: nat)
    requires Good(m) && IsDir(m, d) && a < 0x1_0000_0000
    ensures var w := Entry(m.frames, d, a / PGSIZE);
      Mmu(m.frames, d, a) == if Present(w) then Page(Frame(w), w / PTE_W % 2 == 1, w / PTE_U % 2 == 1) else NoPage
  {
    var v := a / PGSIZE;
    assert a / 0x40_0000 == v / NPTENTRIES && a / 0x1000 % 0x400 == v % NPTENTRIES;
    assert PdeOk(m, d, v / NPTENTRIES);
    var pde := m.frames[d][v / NPTENTRIES];
    if Present(pde) { AllAllowed(pde); }
  }

  lemma AllAllowed(w: Word)
    requires Flags(w) == PTE_P + PTE_W + PTE_U
    ensures w % 2 == 1 && w / 2 % 2 == 1 && w / 4 % 2 == 1
  {
    LowBits(w);
    hide Flags;
  }

  /** The flags are the low bits. */
  lemma LowBits(w: Word)
    ensures var r := Flags(w); w % 2 == r % 2 && w / 2 % 2 == r / 2 % 2 && w / 4 % 2 == r / 4 % 2
  {
    var f, r := Frame(w), Flags(w);
    assert w == f * PGSIZE + r;
    hide Frame, Flags;
    Half(2048 * f, r);
    Half(1024 * f, r / 2);
    Half(512 * f, r / 2 / 2);
    Quarter(w);
    Quarter(r);
  }

  lemma Half(x: nat, r: nat)
    ensures (2 * x + r) / 2 == x + r / 2 && (2 * x + r) % 2 == r % 2
  {}

  lemma Quarter(x: nat)
    ensures x / 4 == x / 2 / 2
  {}

  // ----- taking and giving back a page -----

  function TakeImage(m: Image): (n: Image)
    requires |m.free| > 0 && m.free[0] < |m.owner|
  {
    Image(m.frames, m.free[1..], m.owner[m.free[0] := Held])
  }

  /** With the same pages, directories, tables and user pages stay what they are. */
  lemma SameTables(m: Image, n: Image)
    requires Good(m) && n.frames == m.frames && |n.owner| == |m.owner| && n.owner[0] == Other && FreeOk(n)
    requires forall f :: 0 <= f < |m.owner| ==> n.owner[f] == m.owner[f] || (Loose(m.owner[f]) && Loose(n.owner[f]))
    ensures Good(n)
  {
    forall d, p | IsDir(n, d) && 0 <= p < NPTENTRIES ensures PdeOk(n, d, p) { assert IsDir(m, d) && PdeOk(m, d, p); }
    forall d, v | IsDir(n, d) && 0 <= v < USERPAGES ensures PteOk(n, d, v) { assert IsDir(m, d) && PteOk(m, d, v); }
    forall f | 0 <= f < |n.owner| ensures OwnerOk(n, f) { assert OwnerOk(m, f); }
  }

  /** Pages that no page table names. */
  predicate Loose(o: Owner) { o.Free? || o.Held? || o.Other? }

  lemma TakeFree(m: Image)
    requires FreeOk(m) && |m.frames| == |m.owner| && |m.free| > 0
    ensures FreeOk(TakeImage(m))
  {
    var n, f := TakeImage(m), m.free[0];
    assert forall i :: 0 <= i < |n.free| ==> n.free[i] == m.free[i + 1];
    forall g | 0 <= g < |n.owner| && n.owner[g].Free? ensures g in n.free {
      assert g in m.free && g != f;
      var i :| 0 <= i < |m.free| && m.free[i] == g;
      assert n.free[i - 1] == g;
    }
    forall i | 0 <= i < |n.free| ensures LinkOk(n, i) {
      var next := i + 1;
      assert LinkOk(m, next);
    }
  }

  /** The page that is taken points to the new head of the list. */
  lemma TakeKeeps(m: Image)
    requires Good(m) && |m.free| > 0
    ensures 0 < m.free[0] < |m.owner| && m.owner[m.free[0]].Free? && Good(TakeImage(m))
    ensures m.frames[m.free[0]][0] == Head(m.free[1..])
  {
    assert LinkOk(m, 0);
    TakeFree(m);
    hide FreeOk;
    SameTables(m, TakeImage(m));
  }

  /** Writing to a page that is no directory or table changes no entry. */
  lemma EntryFrame(m: Image, f: nat, page: Page, d: nat, v: nat)
    requires Good(m) && f < |m.frames| && !m.owner[f].Dir? && !m.owner[f].Table? && IsDir(m, d) && v < VPAGES
    ensures Entry(m.frames[f := page], d, v) == Entry(m.frames, d, v)
  {
    assert PdeOk(m, d, v / NPTENTRIES);
  }

  lemma WriteKeeps(m: Image, f: nat, page: Page)
    requires Good(m) && f < |m.frames| && !m.owner[f].Dir? && !m.owner[f].Table? && !m.owner[f].Free?
    ensures Good(Image(m.frames[f := page], m.free, m.owner))
    ensures forall d, v :: IsDir(m, d) && 0 <= v < VPAGES ==> Entry(m.frames[f := page], d, v) == Entry(m.frames, d, v)
  {
    var n := Image(m.frames[f := page], m.free, m.owner);
    FreeKeeps(m, n);
    hide FreeOk;
    forall d, v | IsDir(m, d) && 0 <= v < VPAGES
      ensures Entry(n.frames, d, v) == Entry(m.frames, d, v)
    {
      EntryFrame(m, f, page, d, v);
    }
    forall d, p | IsDir(n, d) && 0 <= p < NPTENTRIES ensures PdeOk(n, d, p) { assert IsDir(m, d) && PdeOk(m, d, p); }
    forall d, v | IsDir(n, d) && 0 <= v < USERPAGES ensures PteOk(n, d, v) { assert IsDir(m, d) && PteOk(m, d, v); }
    forall g | 0 <= g < |n.owner| ensures OwnerOk(n, g) { assert OwnerOk(m, g); }
  }

  function GiveImage(m: Image, f: nat): (n: Image)
    requires f < |m.owner| && f < |m.frames|
  {
    Image(m.frames[f := Junk(Head(m.free))], [f] + m.free, m.owner[f := Free])
  }

  lemma GiveFree(m: Image, f: nat)
    requires FreeOk(m) && |m.frames| == |m.owner| && 0 < f < |m.owner| && m.owner[f].Held?
    ensures FreeOk(GiveImage(m, f))
  {
    var n := GiveImage(m, f);
    assert f !in m.free;
    forall g | 0 <= g < |n.owner| && n.owner[g].Free? ensures g in n.free {
      if g != f {
        assert g in m.free;
        var i :| 0 <= i < |m.free| && m.free[i] == g;
        assert n.free[i + 1] == g;
      } else { assert n.free[0] == f; }
    }
    assert forall i :: 0 < i < |n.free| ==> n.free[i] == m.free[i - 1];
    GiveLinks(m, f);
  }

  lemma GiveLinks(m: Image, f: nat)
    requires FreeOk(m) && |m.frames| == |m.owner| && f < |m.owner| && m.owner[f].Held?
    ensures forall i :: 0 <= i < |m.free| + 1 ==> GiveImage(m, f).free[i] < USERPAGES
    ensures forall i :: 0 <= i < |m.free| + 1 ==> LinkOk(GiveImage(m, f), i)
  {
    var n := GiveImage(m, f);
    assert forall i :: 0 < i < |n.free| ==> n.free[i] == m.free[i - 1];
    forall i | 0 <= i < |n.free| ensures LinkOk(n, i) {
      if i > 0 {
        var before := i - 1;
        assert LinkOk(m, before);
      }
    }
  }

  lemma GiveKeeps(m: Image, f: nat)
    requires Good(m) && f < |m.owner| && m.owner[f].Held?
    ensures Good(GiveImage(m, f))
    ensures forall d, v :: IsDir(m, d) && 0 <= v < VPAGES ==>
      Entry(GiveImage(m, f).frames, d, v) == Entry(m.frames, d, v)
  {
    var page := Junk(Head(m.free));
    var w, n := Image(m.frames[f := page], m.free, m.owner), GiveImage(m, f);
    WriteKeeps(m, f, page);
    GiveFree(m, f);
    hide FreeOk, Junk;
    SameTables(w, n);
  }

  // ----- tables -----

  /** A zeroed page becomes a page directory without entries. */
  lemma NewDirKeeps(m: Image, f: nat)
    requires Good(m) && f < |m.owner| && m.owner[f].Held? && m.frames[f] == ZeroPage()
    ensures Good(Image(m.frames, m.free, m.owner[f := Dir]))
    ensures forall v :: 0 <= v < VPAGES ==> Entry(m.frames, f, v) == 0
  {
    var n := Image(m.frames, m.free, m.owner[f := Dir]);
    FreeKeeps(m, n);
    hide FreeOk;
    forall d, p | IsDir(n, d) && 0 <= p < NPTENTRIES
      ensures PdeOk(n, d, p)
    {
      if d != f { assert IsDir(m, d) && PdeOk(m, d, p); }
    }
    forall d, v | IsDir(n, d) && 0 <= v < USERPAGES
      ensures PteOk(n, d, v)
    {
      if d != f { assert IsDir(m, d) && PteOk(m, d, v); }
    }
    forall g | 0 <= g < |n.owner| ensures OwnerOk(n, g) { assert OwnerOk(m, g); }
  }

  /** A zeroed page becomes the table for entry p of directory d. */
  function TableImage(m: Image, d: nat, p: nat, f: nat): (n: Image)
    requires d < |m.frames| && p < NPTENTRIES && f < |m.owner| && f < VPAGES
  {
    Image(m.frames[d := m.frames[d][p := MakePte(f, PTE_P + PTE_W + PTE_U)]], m.free, m.owner[f := Table(d, p)])
  }

  lemma TableKeeps(m: Image, d: nat, p: nat, f: nat)
    requires Good(m) && IsDir(m, d) && p < NPTENTRIES && !Present(m.frames[d][p])
    requires f < |m.owner| && m.owner[f].Held? && m.frames[f] == ZeroPage()
    ensures Good(TableImage(m, d, p, f))
    ensures forall e, v :: IsDir(m, e) && 0 <= v < VPAGES ==>
      Entry(TableImage(m, d, p, f).frames, e, v) == Entry(m.frames, e, v)
  {
    var n := TableImage(m, d, p, f);
    MakePteMeans(f, PTE_P + PTE_W + PTE_U);
    FreeKeeps(m, n);
    hide MakePte, Frame, Present, FreeOk;
    forall e, v | IsDir(m, e) && 0 <= v < VPAGES ensures Entry(n.frames, e, v) == Entry(m.frames, e, v) {
      assert PdeOk(m, e, v / NPTENTRIES);
      TableEntry(m, d, p, f, e, v);
    }
    forall e, q | IsDir(n, e) && 0 <= q < NPTENTRIES ensures PdeOk(n, e, q) { assert IsDir(m, e) && PdeOk(m, e, q); }
    forall e, v | IsDir(n, e) && 0 <= v < USERPAGES ensures PteOk(n, e, v) { assert IsDir(m, e) && PteOk(m, e, v); }
    forall g | 0 <= g < |n.owner| ensures OwnerOk(n, g) { assert OwnerOk(m, g); }
  }

  lemma TableEntry(m: Image, d: nat, p: nat, f: nat, e: nat, v: nat)
    requires Good(m) && IsDir(m, d) && p < NPTENTRIES && !Present(m.frames[d][p]) && IsDir(m, e) && v < VPAGES
    requires f < |m.owner| && m.owner[f].Held? && m.frames[f] == ZeroPage()
    ensures Entry(TableImage(m, d, p, f).frames, e, v) == Entry(m.frames, e, v)
  {
    MakePteMeans(f, PTE_P + PTE_W + PTE_U);
    assert PdeOk(m, e, v / NPTENTRIES);
    hide MakePte, Frame, Present;
  }

  /** The word for page v of directory d is changed, in the table that is there for it. */
  function EntryFrames(frames: seq<Page>, d: nat, v: nat, w: Word): (r: seq<Page>)
    requires d < |frames| && v < VPAGES && Frame(frames[d][v / NPTENTRIES]) < |frames|
  {
    var t := Frame(frames[d][v / NPTENTRIES]);
    frames[t := frames[t][v % NPTENTRIES := w]]
  }

  ghost predicate HasTable(m: Image, d: nat, v: nat) {
    IsDir(m, d) && v < VPAGES && Present(m.frames[d][v / NPTENTRIES]) && Frame(m.frames[d][v / NPTENTRIES]) < |m.frames|
  }

  /** That is the only entry that changes. */
  lemma EntryAfterSet(m: Image, d: nat, v: nat, w: Word, e: nat, u: nat)
    requires Good(m) && HasTable(m, d, v) && IsDir(m, e) && u < VPAGES
    ensures Entry(EntryFrames(m.frames, d, v, w), e, u) == if e == d && u == v then w else Entry(m.frames, e, u)
    ensures EntryFrames(m.frames, d, v, w)[e] == m.frames[e]
  {
    assert PdeOk(m, d, v / NPTENTRIES) && PdeOk(m, e, u / NPTENTRIES);
    SamePage(v, u);
  }

  lemma SamePage(v: nat, u: nat)
    ensures v / NPTENTRIES == u / NPTENTRIES && v % NPTENTRIES == u % NPTENTRIES <==> v == u
  {}

  /** Setting a kernel entry concerns no page's owner; a user entry takes a held page, or gives its page up. */
  ghost predicate SetOk(m: Image, d: nat, v: nat, w: Word, owner: seq<Owner>)
    requires HasTable(m, d, v)
  {
    if v >= USERPAGES then owner == m.owner
    else if Present(w) then
      && !Present(Entry(m.frames, d, v)) && Frame(w) < |m.owner| && m.owner[Frame(w)].Held?
      && owner == m.owner[Frame(w) := User(d, v)]
    else if Present(Entry(m.frames, d, v)) then
      Frame(Entry(m.frames, d, v)) < |m.owner| && owner == m.owner[Frame(Entry(m.frames, d, v)) := Held]
    else owner == m.owner
  }

  lemma SetKeeps(m: Image, d: nat, v: nat, w: Word, owner: seq<Owner>)
    requires Good(m) && HasTable(m, d, v) && SetOk(m, d, v, w, owner)
    ensures Good(Image(EntryFrames(m.frames, d, v, w), m.free, owner))
  {
    var n := Image(EntryFrames(m.frames, d, v, w), m.free, owner);
    if v < USERPAGES { assert PteOk(m, d, v); }
    SetOwners(m, d, v, w, owner);
    SetFree(m, n, d, v, w);
    hide HasTable, SetOk, EntryFrames;
    forall e, p | IsDir(n, e) && 0 <= p < NPTENTRIES ensures PdeOk(n, e, p) { SetPde(m, d, v, w, owner, e, p); }
    forall e, u | IsDir(n, e) && 0 <= u < USERPAGES ensures PteOk(n, e, u) { SetPte(m, d, v, w, owner, e, u); }
    forall f | 0 <= f < |n.owner| ensures OwnerOk(n, f) { SetOwner(m, d, v, w, owner, f); }
  }

  /** Owners change between held and that user page only. */
  lemma SetOwners(m: Image, d: nat, v: nat, w: Word, owner: seq<Owner>)
    requires Good(m) && HasTable(m, d, v) && SetOk(m, d, v, w, owner)
    ensures |owner| == |m.owner| && owner[0] == Other
    ensures forall f :: 0 <= f < |owner| ==>
      owner[f] == m.owner[f] || (owner[f] == User(d, v) && m.owner[f].Held?)
        || (owner[f].Held? && m.owner[f] == User(d, v))
  {
    if v < USERPAGES { assert PteOk(m, d, v); }
  }

  lemma SetFree(m: Image, n: Image, d: nat, v: nat, w: Word)
    requires Good(m) && HasTable(m, d, v) && n.frames == EntryFrames(m.frames, d, v, w) && n.free == m.free
    requires |n.owner| == |m.owner|
    requires forall f :: 0 <= f < |n.owner| ==>
      || n.owner[f] == m.owner[f]
      || (n.owner[f] == User(d, v) && m.owner[f].Held?) || (n.owner[f].Held? && m.owner[f] == User(d, v))
    ensures FreeOk(n)
  {
    assert PdeOk(m, d, v / NPTENTRIES);
    FreeKeeps(m, n);
  }

  lemma SetPde(m: Image, d: nat, v: nat, w: Word, owner: seq<Owner>, e: nat, p: nat)
    requires Good(m) && HasTable(m, d, v) && SetOk(m, d, v, w, owner) && |owner| == |m.owner|
    requires IsDir(Image(EntryFrames(m.frames, d, v, w), m.free, owner), e) && p < NPTENTRIES
    ensures PdeOk(Image(EntryFrames(m.frames, d, v, w), m.free, owner), e, p)
  {
    SetOwners(m, d, v, w, owner);
    assert PdeOk(m, e, p);
    EntryAfterSet(m, d, v, w, e, 0);
    hide EntryFrames, SetOk, Entry;
  }

  lemma SetPte(m: Image, d: nat, v: nat, w: Word, owner: seq<Owner>, e: nat, u: nat)
    requires Good(m) && HasTable(m, d, v) && SetOk(m, d, v, w, owner) && |owner| == |m.owner|
    requires IsDir(Image(EntryFrames(m.frames, d, v, w), m.free, owner), e) && u < USERPAGES
    ensures PteOk(Image(EntryFrames(m.frames, d, v, w), m.free, owner), e, u)
  {
    SetOwners(m, d, v, w, owner);
    assert IsDir(m, e) && PteOk(m, e, u);
    if v < USERPAGES { assert PteOk(m, d, v); }
    EntryAfterSet(m, d, v, w, e, u);
    hide EntryFrames, Entry;
  }

  lemma SetOwner(m: Image, d: nat, v: nat, w: Word, owner: seq<Owner>, f: nat)
    requires Good(m) && HasTable(m, d, v) && SetOk(m, d, v, w, owner) && |owner| == |m.owner| && f < |owner|
    ensures OwnerOk(Image(EntryFrames(m.frames, d, v, w), m.free, owner), f)
  {
    SetOwners(m, d, v, w, owner);
    assert OwnerOk(m, f);
    if v < USERPAGES { assert PteOk(m, d, v); }
    match owner[f] {
      case Table(e, p) => EntryAfterSet(m, d, v, w, e, 0);
      case User(e, u) => EntryAfterSet(m, d, v, w, e, u);
      case _ =>
    }
    hide EntryFrames, Entry;
  }

  // ----- page arithmetic -----

  /** Pages up to and including the one that `sz` bytes end in: PGROUNDUP(sz) / PGSIZE. */
  function PagesFor(sz: nat): (n: nat)
    ensures n * PGSIZE >= sz && (n == 0 || (n - 1) * PGSIZE < sz)
  {
    (sz + PGSIZE - 1) / PGSIZE
  }

  /** PGROUNDDOWN. */
  function RoundDown(a: nat): (r: nat)
    ensures r == a / PGSIZE * PGSIZE
  {
    a - a % PGSIZE
  }

  /** Page k starts at address a. */
  ghost predicate PageAt(a: nat, k: nat) { a == k * PGSIZE }

  lemma PageAtStart(sz: nat)
    ensures PageAt(RoundDown(sz + PGSIZE - 1), PagesFor(sz))
  {}

  lemma PageAtMeans(a: nat, k: nat, sz: nat)
    requires PageAt(a, k)
    ensures a / PGSIZE == k && (a < sz <==> k < PagesFor(sz))
  {}

  lemma PageAtNext(a: nat, k: nat)
    requires PageAt(a, k)
    ensures PageAt(a + PGSIZE, k + 1)
  {}

  lemma PageAtEnd(a: nat, k: nat, end: nat)
    requires PageAt(a, k)
    ensures a / PGSIZE == k && (a + PGSIZE <= end <==> k < end / PGSIZE)
  {}

  // ----- filling the free list -----

  /** Pages lo to hi are free, and nothing else has changed. */
  ghost predicate RangeFreed(m: Image, n: Image, lo: nat, hi: nat) {
    && Good(n) && |n.owner| == |m.owner| == |m.frames| == |n.frames|
    && (forall f :: 0 <= f < |m.owner| && lo <= f < hi ==> n.owner[f].Free?)
    && (forall f :: 0 <= f < |m.owner| && !(lo <= f < hi) ==> n.owner[f] == m.owner[f] && n.frames[f] == m.frames[f])
  }

  /** Before the first page is freed, memory without page tables is in order. */
  lemma BootGood(m: Image)
    requires 0 < |m.frames| == |m.owner| <= USERPAGES && m.owner[0] == Other && m.free == []
    requires forall f :: 0 <= f < |m.owner| ==> m.owner[f].Held? || m.owner[f].Other?
    ensures Good(m)
  {}
}
