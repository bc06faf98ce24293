/** malloc, free and morecore (umalloc.c) over the header words in memory. */
module Malloc {
  import opened FreeList

  const UINT_LIMIT: nat := 0x1_0000_0000
  const HEADER: nat := 8          // sizeof(Header)
  const NALLOC: nat := 4096       // the least that morecore asks for, in units

  // ----- the request in 32-bit arithmetic -----

  /** nunits: the block's length with its header. */
  function UnitsFor(nbytes: nat): (n: nat)
    requires nbytes < UINT_LIMIT
    ensures 0 < n <= UNITS
  {
    (nbytes + HEADER - 1) % UINT_LIMIT / HEADER + 1
  }

  /** The block is large enough for the request unless the rounding wraps around. */
  lemma UnitsSuffice(nbytes: nat)
    requires nbytes < UINT_LIMIT
    ensures (UnitsFor(nbytes) - 1) * HEADER >= nbytes <==> nbytes <= UINT_LIMIT - HEADER
    ensures nbytes <= UINT_LIMIT - HEADER ==> (UnitsFor(nbytes) - 1) * HEADER < nbytes + HEADER
  {}

  /** The number of units that morecore asks for. */
  function Grab(nunits: nat): (nu: nat)
    ensures nu >= nunits
  {
    if nunits < NALLOC then NALLOC else nunits
  }

  /** What sbrk sees: nu * sizeof(Header) cut to 32 bits and taken as a signed int. */
  function SbrkBytes(nu: nat): int {
    var b := nu * HEADER % UINT_LIMIT;
    if b < UINT_LIMIT / 2 then b else b - UINT_LIMIT
  }

  /** sbrk is asked for what morecore means exactly if the request is below 2 GB or so close to 4 GB
      that it has already wrapped around. */
  lemma SbrkAsksRight(nbytes: nat)
    requires nbytes < UINT_LIMIT
    ensures SbrkBytes(Grab(UnitsFor(nbytes))) == Grab(UnitsFor(nbytes)) * HEADER <==>
      nbytes <= UINT_LIMIT / 2 - 2 * HEADER || nbytes > UINT_LIMIT - HEADER
    ensures SbrkBytes(Grab(UnitsFor(nbytes))) != Grab(UnitsFor(nbytes)) * HEADER ==>
      SbrkBytes(Grab(UnitsFor(nbytes))) <= 0
  {}

  // ----- the heap in memory -----

  function Next(n: nat, k: nat): (j: nat)
    requires k < n
    ensures j < n
  {
    if k + 1 == n then 0 else k + 1
  }

  /** The headers of the free chunks hold their sizes and form one circle in address order. */
  ghost predicate Linked(ptr: seq<nat>, size: seq<nat>, r: seq<Chunk>) {
    && |ptr| == |size| == UNITS
    && forall k :: 0 <= k < |r| ==> LinkedAt(ptr, size, r, k)
  }

  ghost predicate LinkedAt(ptr: seq<nat>, size: seq<nat>, r: seq<Chunk>, k: nat)
    requires |ptr| == |size| == UNITS && k < |r|
  {
    r[k].addr < UNITS && size[r[k].addr] == r[k].size && ptr[r[k].addr] == r[Next(|r|, k)].addr
  }

  /** Blocks handed out keep their size in their header and overlap neither each other nor a free chunk. */
  ghost predicate LiveApart(r: seq<Chunk>, size: seq<nat>, live: map<nat, nat>)
    requires |size| == UNITS
  {
    && (forall a :: a in live ==> Clear(r, Chunk(a, live[a])) && a < UNITS && size[a] == live[a])
    && (forall a, b :: a in live && b in live && a < b ==> a + live[a] <= b)
  }

  ghost predicate InLive(live: map<nat, nat>, u: nat) {
    exists a :: a in live && a <= u < a + live[a]
  }

  /** Every unit obtained from sbrk, and no other, is free or in a block handed out. */
  ghost predicate Conserved(r: seq<Chunk>, live: map<nat, nat>, obtained: set<nat>) {
    forall u: nat :: u in obtained <==> Has(r, u) || InLive(live, u)
  }

  // ----- the free list's nodes in memory -----

  /** The address of a header is the address of one chunk only. */
  lemma OneHeader(r: seq<Chunk>, i: nat, j: nat)
    requires Canonical(r) && i < |r| && j < |r|
    ensures r[i].addr == r[j].addr <==> i == j
    ensures i < j <==> r[i].addr < r[j].addr
  {
    if i < j { assert r[i].addr + r[i].size < r[j].addr; }
    if j < i { assert r[j].addr + r[j].size < r[i].addr; }
  }

  /** The loop of free stops at chunk i exactly when i is the last one below bp. */
  lemma StopsAt(r: seq<Chunk>, bp: nat, i: nat, p: nat, next: nat)
    requires Canonical(r) && i < |r| && p == r[i].addr && next == r[Next(|r|, i)].addr
    requires r[0].addr < bp && forall k :: 0 <= k < |r| ==> r[k].addr != bp
    ensures (p < bp < next || (p >= next && (bp > p || bp < next))) <==> i == Position(r, bp)
  {
    var j := Position(r, bp);
    OneHeader(r, i, j);
    OneHeader(r, Next(|r|, i), j);
    OneHeader(r, i, Next(|r|, i));
    OneHeader(r, 0, Next(|r|, i));
    if j + 1 < |r| { OneHeader(r, j + 1, i); OneHeader(r, j + 1, Next(|r|, i)); }
  }

  /** How far the loop of free is from its end. */
  function Distance(n: nat, i: nat, j: nat): nat
    requires i < n && j < n
  {
    if i <= j then j - i else j + n - i
  }

  /** What sbrk answers: where the new memory starts, or -1. */
  datatype Sbrk = At(addr: nat) | Failed

  predicate InRange(a: nat, n: nat, u: nat) { a <= u < a + n }

  function Range(a: nat, n: nat): (s: set<nat>) {
    set u: nat | a <= u < a + n && InRange(a, n, u)
  }

  /** sbrk hands out memory above all that it has handed out before. */
  ghost predicate Granted(r: seq<Chunk>, obtained: set<nat>, sbrk: Sbrk, nu: nat)
    requires |r| > 0
  {
    sbrk.At? ==> r[0].addr < sbrk.addr && sbrk.addr + nu <= UNITS && forall u :: u in obtained ==> u < sbrk.addr
  }

  /** malloc's answer: the address behind the block's header, 0, or an sbrk that does not grow. */
  datatype Answer = Block(p: nat) | NoMemory | Shrinks

  ghost predicate Fits(r: seq<Chunk>, n: nat) {
    exists k :: 0 <= k < |r| && r[k].size >= n
  }

  /** d chunks on from cur around the circle. */
  function Ahead(n: nat, cur: nat, d: nat): (k: nat)
    requires cur < n && d <= n
    ensures k < n
  {
    if cur + d < n then cur + d else cur + d - n
  }

  ghost predicate Unfit(r: seq<Chunk>, cur: nat, n: nat, s: nat)
    requires cur < |r| && s <= |r|
  {
    forall d :: 1 <= d <= s ==> r[Ahead(|r|, cur, d)].size < n
  }

  /** f is the first chunk that fits, from the one behind cur on. */
  ghost predicate FirstFrom(r: seq<Chunk>, cur: nat, n: nat, f: nat) {
    cur < |r| && exists d :: 0 <= d < |r| && Unfit(r, cur, n, d) && f == Ahead(|r|, cur, d + 1) && r[f].size >= n
  }

  /** n units at q have been cut off the end of chunk f of the free list; if nothing fitted, of the
      list with sbrk's memory in it. */
  ghost predicate TakenFrom(r: seq<Chunk>, obtained: set<nat>, n: nat, sbrk: Sbrk, f: nat, q: nat, r': seq<Chunk>,
                            obtained': set<nat>) {
    if Fits(r, n) then
      0 < f < |r| && n <= r[f].size && r' == Carve(r, f, n) && q == Carved(r, f, n).addr && obtained' == obtained
    else
      && sbrk.At? && |r| > 0 && r[0].addr < sbrk.addr
      && 0 < f < |Inserted(r, Chunk(sbrk.addr, Grab(n)))| && n <= Inserted(r, Chunk(sbrk.addr, Grab(n)))[f].size
      && r' == Carve(Inserted(r, Chunk(sbrk.addr, Grab(n))), f, n)
      && q == Carved(Inserted(r, Chunk(sbrk.addr, Grab(n))), f, n).addr
      && obtained' == obtained + Range(sbrk.addr, Grab(n))
  }

  /** Freeing what malloc has just handed out restores the very same free list when there was a chunk
      that fitted; after a call of sbrk it leaves the old list with sbrk's memory in it. */
  lemma FreeUndoesMalloc(r: seq<Chunk>, obtained: set<nat>, n: nat, sbrk: Sbrk, f: nat, q: nat, r': seq<Chunk>,
                         obtained': set<nat>)
    requires Canonical(r) && n > 0 && TakenFrom(r, obtained, n, sbrk, f, q, r', obtained')
    requires sbrk.At? && !Fits(r, n) ==> Clear(r, Chunk(sbrk.addr, Grab(n)))
    ensures |r'| > 0 && r'[0].addr < q
    ensures Fits(r, n) ==> Inserted(r', Chunk(q, n)) == r
    ensures !Fits(r, n) ==> Inserted(r', Chunk(q, n)) == Inserted(r, Chunk(sbrk.addr, Grab(n)))
  {
    if Fits(r, n) {
      CarveInsert(r, f, n);
    } else {
      var c := Chunk(sbrk.addr, Grab(n));
      InsertedCanonical(r, c);
      CarveInsert(Inserted(r, c), f, n);
    }
  }

  /** r' is r with sbrk's memory in it, which was needed. */
  ghost predicate GrownBy(r: seq<Chunk>, obtained: set<nat>, n: nat, sbrk: Sbrk, r': seq<Chunk>, obtained': set<nat>) {
    && sbrk.At? && |r| > 0 && !Fits(r, n) && SbrkBytes(Grab(n)) > 0 && r[0].addr < sbrk.addr && Fits(r', n)
    && r' == Inserted(r, Chunk(sbrk.addr, Grab(n))) && obtained' == obtained + Range(sbrk.addr, Grab(n))
  }

  lemma GrownMeans(r: seq<Chunk>, obtained: set<nat>, n: nat, sbrk: Sbrk, r': seq<Chunk>, obtained': set<nat>)
    requires GrownBy(r, obtained, n, sbrk, r', obtained')
    ensures Fits(r', n)
  {}

  lemma TakenGrown(r: seq<Chunk>, obtained: set<nat>, n: nat, sbrk: Sbrk, f: nat, r': seq<Chunk>, obtained': set<nat>)
    requires GrownBy(r, obtained, n, sbrk, r', obtained') && 0 < f < |r'| && n <= r'[f].size
    ensures TakenFrom(r, obtained, n, sbrk, f, Carved(r', f, n).addr, Carve(r', f, n), obtained')
    ensures !Fits(r, n) && SbrkBytes(Grab(n)) > 0 && sbrk.At?
  {}

  lemma TakenFound(r: seq<Chunk>, obtained: set<nat>, n: nat, sbrk: Sbrk, f: nat)
    requires 0 < f < |r| && n <= r[f].size
    ensures Fits(r, n) && TakenFrom(r, obtained, n, sbrk, f, Carved(r, f, n).addr, Carve(r, f, n), obtained)
  {}

  lemma NotTheBase(r: seq<Chunk>, f: nat, n: nat)
    requires Canonical(r) && f < |r| && n > 0 && r[f].size >= n
    ensures f > 0 && Fits(r, n)
  {}

  lemma FirstFound(r: seq<Chunk>, cur: nat, n: nat, s: nat)
    requires cur < |r| && s < |r| && Unfit(r, cur, n, s) && r[Next(|r|, Ahead(|r|, cur, s))].size >= n
    ensures FirstFrom(r, cur, n, Next(|r|, Ahead(|r|, cur, s)))
  {
    assert Next(|r|, Ahead(|r|, cur, s)) == Ahead(|r|, cur, s + 1);
  }

  lemma StepOn(r: seq<Chunk>, cur: nat, n: nat, s: nat)
    requires Canonical(r) && cur < |r| && s < |r| && Unfit(r, cur, n, s)
    requires r[Next(|r|, Ahead(|r|, cur, s))].size < n && r[Next(|r|, Ahead(|r|, cur, s))].addr != r[cur].addr
    ensures s + 1 < |r| && Next(|r|, Ahead(|r|, cur, s)) == Ahead(|r|, cur, s + 1) && Unfit(r, cur, n, s + 1)
  {}

  /** Back at freep, every chunk has been looked at. */
  lemma WentRound(r: seq<Chunk>, cur: nat, n: nat, s: nat)
    requires Canonical(r) && cur < |r| && s < |r| && Unfit(r, cur, n, s)
    requires r[Next(|r|, Ahead(|r|, cur, s))].size < n && r[Next(|r|, Ahead(|r|, cur, s))].addr == r[cur].addr
    ensures !Fits(r, n)
  {
    OneHeader(r, Next(|r|, Ahead(|r|, cur, s)), cur);
    assert s + 1 == |r|;
    forall k | 0 <= k < |r| ensures r[k].size < n {
      var d := if k > cur then k - cur else k + |r| - cur;
      assert k == Ahead(|r|, cur, d);
    }
  }

  /** With sbrk's memory in it, the list has a chunk that fits. */
  lemma GrownFits(r: seq<Chunk>, obtained: set<nat>, sbrk: Sbrk, n: nat, obtained': set<nat>)
    requires |r| > 0 && sbrk.At? && Granted(r, obtained, sbrk, Grab(n)) && !Fits(r, n) && SbrkBytes(Grab(n)) > 0
    requires obtained' == obtained + Range(sbrk.addr, Grab(n))
    ensures r[0].addr < sbrk.addr && GrownBy(r, obtained, n, sbrk, Inserted(r, Chunk(sbrk.addr, Grab(n))), obtained')
  {
    var c := Chunk(sbrk.addr, Grab(n));
    var j := Position(r, c.addr);
    ReplacedAt(r, Low(r, j, c), Joined(r, j, c), High(r, j, c));
    assert Inserted(r, c)[Low(r, j, c)].size >= n;
  }

  class Heap {
    const base: nat                  // the static header
    var freep: nat                   // 0 until the first malloc
    var ptr: seq<nat>                // s.ptr of the header at every address
    var size: seq<nat>               // s.size of the header at every address
    ghost var ring: seq<Chunk>       // the free list from base on
    ghost var cur: nat               // where in it freep points
    ghost var live: map<nat, nat>    // blocks handed out and their lengths
    ghost var obtained: set<nat>     // units obtained from sbrk

    ghost predicate Core()
      reads this
    {
      && 0 < base < UNITS && Canonical(ring) && ring[0] == Chunk(base, 0)
      && Linked(ptr, size, ring)
      && cur < |ring| && freep == ring[cur].addr
    }

    /** The end of free: bp goes in behind p, joined with its neighbours. */
    method Link(p: nat, bp: nat)
      requires Core() && bp < UNITS && Clear(ring, Chunk(bp, size[bp]))
      requires p == ring[Position(ring, bp)].addr
      modifies this`freep, this`ptr, this`size, this`ring, this`cur
      ensures Core() && ring == Inserted(old(ring), Chunk(bp, old(size)[bp])) && freep == p
      ensures forall a :: 0 <= a < UNITS && a != bp && a != p ==> size[a] == old(size)[a]
    {
      ghost var c := Chunk(bp, size[bp]);
      WritesLink(ptr, size, ring, c);
      InsertedCanonical(ring, c);
      hide Canonical, Clear, Linked, Inserted, Position;
      WriteHeaders(p, bp);
      freep := p;
      cur := Position(ring, bp);
      ring := Inserted(ring, c);
    }

    method WriteHeaders(p: nat, bp: nat)
      requires |ptr| == |size| == UNITS && p < UNITS && bp < UNITS && p != bp && ptr[p] < UNITS && ptr[p] != bp
      modifies this`ptr, this`size
      ensures ptr == PtrAfter(old(ptr), old(size), p, bp) && size == SizeAfter(old(ptr), old(size), p, bp)
    {
      if bp + size[bp] == ptr[p] {
        size := size[bp := size[bp] + size[ptr[p]]];
        ptr := ptr[bp := ptr[ptr[p]]];
      } else {
        ptr := ptr[bp := ptr[p]];
      }
      if p + size[p] == bp {
        size := size[p := size[p] + size[bp]];
        ptr := ptr[p := ptr[bp]];
      } else {
        ptr := ptr[p := bp];
      }
    }

    ghost predicate Valid()
      reads this
    {
      && 0 < base < UNITS && Canonical(ring) && ring[0] == Chunk(base, 0)
      && |ptr| == |size| == UNITS
      && (freep == 0 ==> |ring| == 1 && live == map[])
      && (freep != 0 ==> Core())
      && LiveApart(ring, size, live) && Conserved(ring, live, obtained)
    }

    /** A process at its start: nothing obtained, nothing handed out. */
    constructor (base: nat, memory: seq<nat>)
      requires 0 < base < UNITS && |memory| == UNITS
      ensures Valid() && ring == [Chunk(base, 0)] && live == map[] && obtained == {} && this.base == base
    {
      this.base, freep, ptr, size := base, 0, memory, memory;
      ring, cur, live, obtained := [Chunk(base, 0)], 0, map[], {};
    }

    /** free. The block goes back into the free list at its place, joined with its neighbours. */
    method Free(ap: nat)
      requires Valid() && ap > 0 && ap - 1 in live
      modifies this`freep, this`ptr, this`size, this`ring, this`cur, this`live
      ensures Valid() && live == old(live) - {ap - 1} && freep != 0
      ensures ring == Inserted(old(ring), Chunk(ap - 1, old(live)[ap - 1]))
    {
      var bp := ap - 1;
      ghost var r, size0, live0, c := ring, size, live, Chunk(bp, live[bp]);
      ClearHeader(ring, c);
      hide Canonical, Linked, Clear, Conserved;
      var p := FindPlace(bp);
      Link(p, bp);
      live := live - {bp};
      LiveAfterFree(r, size0, live0, c, p, size);
      ConservedAfterFree(r, live0, obtained, c);
    }

    /** morecore: at least 4096 units from sbrk, put into the free list; 0 if sbrk fails. */
    method Morecore(nunits: nat, sbrk: Sbrk) returns (p: nat)
      requires Valid() && freep != 0 && 0 < nunits && Granted(ring, obtained, sbrk, Grab(nunits))
      modifies this`freep, this`ptr, this`size, this`ring, this`cur, this`live, this`obtained
      ensures Valid() && live == old(live)
      ensures sbrk.Failed? ==>
        p == 0 && ring == old(ring) && obtained == old(obtained) && freep == old(freep) && cur == old(cur)
      ensures sbrk.At? ==>
        && p == freep != 0 && ring == Inserted(old(ring), Chunk(sbrk.addr, Grab(nunits)))
        && obtained == old(obtained) + Range(sbrk.addr, Grab(nunits))
    {
      var nu := nunits;
      if nu < NALLOC { nu := NALLOC; }
      if sbrk.Failed? { return 0; }
      var hp := sbrk.addr;
      hide Canonical, Linked, Clear, Conserved, LiveApart, Inserted, Granted, Range;
      ghost var live0 := live;
      Obtain(hp, nu);
      Free(hp + 1);
      AddedRemoved(live0, hp, nu);
      p := freep;
    }

    /** The new memory, made to look like one more block handed out. */
    method Obtain(hp: nat, nu: nat)
      requires Valid() && freep != 0 && nu > 0 && Granted(ring, obtained, At(hp), nu)
      modifies this`size, this`live, this`obtained
      ensures Valid() && hp !in old(live) && live == old(live)[hp := nu] && obtained == old(obtained) + Range(hp, nu)
    {
      NewLive(ptr, size, ring, live, obtained, hp, nu);
      hide Canonical, Linked, Clear, Conserved, LiveApart;
      size := size[hp := nu];
      obtained := obtained + Range(hp, nu);
      live := live[hp := nu];
    }

    /** malloc's way out: n units from the end of chunk p, or all of it. */
    method Take(prevp: nat, p: nat, n: nat, ghost f: nat) returns (q: nat)
      requires Valid() && freep != 0 && 0 < f < |ring| && 0 < n <= ring[f].size
      requires p == ring[f].addr && prevp == ring[f - 1].addr
      modifies this`freep, this`ptr, this`size, this`ring, this`cur, this`live
      ensures Valid() && freep != 0
      ensures ring == Carve(old(ring), f, n) && q == Carved(old(ring), f, n).addr && live == old(live)[q := n]
      ensures q !in old(live)
    {
      ghost var r, ptr0, size0, live0 := ring, ptr, size, live;
      hide Canonical, Linked, Clear, Conserved, LiveApart;
      LinkedNext(ptr, size, ring, f);
      LinkedNext(ptr, size, ring, f - 1);
      LinkedAfterCarve(ptr, size, ring, f, n);
      CarveCanonical(ring, f, n);
      LiveAfterCarve(ring, size, live, f, n);
      ConservedAfterCarve(ring, live, obtained, f, n);
      assert size[p := size[p] - n] == size[p := ring[f].size - n];
      q := p;
      if size[p] == n {
        ptr := ptr[prevp := ptr[p]];
      } else {
        size := size[p := size[p] - n];
        q := q + size[p];
        size := size[q := n];
      }
      freep := prevp;
      ring := Carve(ring, f, n);
      cur := f - 1;
      live := live[q := n];
    }

    /** morecore, when nothing in the list fits: with memory from sbrk something does. */
    method AskMore(n: nat, sbrk: Sbrk) returns (p: nat)
      requires Valid() && freep != 0 && 0 < n && Granted(ring, obtained, sbrk, Grab(n))
      requires |ring| > 0 && !Fits(ring, n) && SbrkBytes(Grab(n)) > 0
      modifies this`freep, this`ptr, this`size, this`ring, this`cur, this`live, this`obtained
      ensures Valid() && live == old(live)
      ensures p == 0 <==> sbrk.Failed?
      ensures p == 0 ==> ring == old(ring) && obtained == old(obtained) && freep == old(freep) && cur == old(cur)
      ensures p != 0 ==> p == freep && GrownBy(old(ring), old(obtained), n, sbrk, ring, obtained)
    {
      hide Canonical, Linked, Clear, Conserved, LiveApart, Inserted, Granted, Range, SbrkBytes, Grab, GrownBy, Fits;
      ghost var r0, obtained0 := ring, obtained;
      p := Morecore(n, sbrk);
      if p != 0 { GrownFits(r0, obtained0, sbrk, n, obtained); }
    }

    /** The block that the search of malloc has stopped at, s places behind freep: it is taken. */
    method TakeFound(prevp: nat, p: nat, n: nat, ghost i: nat, ghost s: nat, ghost grown: bool, ghost r0: seq<Chunk>,
                     ghost obtained0: set<nat>, ghost sbrk: Sbrk) returns (q: nat, ghost f: nat)
      requires Valid() && freep != 0 && 0 < n && s < |ring| && i == Ahead(|ring|, cur, s) && Unfit(ring, cur, n, s)
      requires p == ring[Next(|ring|, i)].addr && prevp == ring[i].addr && ring[Next(|ring|, i)].size >= n
      requires !grown ==> ring == r0 && obtained == obtained0
      requires grown ==> GrownBy(r0, obtained0, n, sbrk, ring, obtained)
      modifies this`freep, this`ptr, this`size, this`ring, this`cur, this`live
      ensures Valid() && q !in old(live) && live == old(live)[q := n]
      ensures TakenFrom(r0, obtained0, n, sbrk, f, q, ring, obtained)
      ensures !grown ==> Fits(r0, n) && FirstFrom(r0, old(cur), n, f)
      ensures grown ==> !Fits(r0, n) && SbrkBytes(Grab(n)) > 0 && sbrk.At?
    {
      hide Linked, Clear, Conserved, LiveApart, Inserted, Granted, Range, SbrkBytes, Grab;
      f := Next(|ring|, i);
      NotTheBase(ring, f, n);
      hide Canonical, GrownBy, TakenFrom, FirstFrom, Fits, Carve, Carved;
      if grown {
        TakenGrown(r0, obtained0, n, sbrk, f, ring, obtained);
      } else {
        FirstFound(ring, cur, n, s);
        TakenFound(r0, obtained0, n, sbrk, f);
      }
      q := Take(prevp, p, n, f);
    }

    /** malloc. From the chunk after freep on around the circle it takes the first that is large enough;
        if there is none, morecore makes one. It fails only when no chunk fits and sbrk fails; a request
        of 2 GB and more asks sbrk for a negative or zero amount, and what the heap is then is not said. */
    method Malloc(nbytes: nat, sbrk: Sbrk) returns (r: Answer, ghost f: nat)
      requires Valid() && nbytes < UINT_LIMIT && Granted(ring, obtained, sbrk, Grab(UnitsFor(nbytes)))
      modifies this
      ensures r.Shrinks? <==> !Fits(old(ring), UnitsFor(nbytes)) && SbrkBytes(Grab(UnitsFor(nbytes))) <= 0
      ensures r.NoMemory? <==>
        !Fits(old(ring), UnitsFor(nbytes)) && SbrkBytes(Grab(UnitsFor(nbytes))) > 0 && sbrk.Failed?
      ensures r.NoMemory? ==> Valid() && ring == old(ring) && live == old(live) && obtained == old(obtained)
      ensures r.Block? ==>
        && r.p > 0 && Valid() && r.p - 1 !in old(live) && live == old(live)[r.p - 1 := UnitsFor(nbytes)]
        && TakenFrom(old(ring), old(obtained), UnitsFor(nbytes), sbrk, f, r.p - 1, ring, obtained)
      ensures r.Block? && Fits(old(ring), UnitsFor(nbytes)) ==> FirstFrom(old(ring), old(cur), UnitsFor(nbytes), f)
    {
      hide Canonical, Linked, Clear, Conserved, LiveApart, Inserted, Granted, Range, SbrkBytes, UnitsFor, Grab;
      hide GrownBy, TakenFrom, FirstFrom, Fits, Carve, Carved;
      f := 0;
      var nunits := UnitsFor(nbytes);
      var prevp := freep;
      if prevp == 0 {
        StartList();
        prevp := freep;
      }
      ghost var r0, live0, obtained0, cur0 := ring, live, obtained, cur;
      ghost var i: nat, s: nat, grown := cur, 0, false;
      LinkedNext(ptr, size, ring, i);
      var p := ptr[prevp];
      while true
        invariant Valid() && freep != 0 && live == live0
        invariant |r0| > 0 && s < |ring| && i == Ahead(|ring|, cur, s) && p == ring[Next(|ring|, i)].addr
        invariant prevp == ring[i].addr
        invariant Unfit(ring, cur, nunits, s)
        invariant !grown ==> ring == r0 && obtained == obtained0 && cur == cur0
        invariant grown ==> GrownBy(r0, obtained0, nunits, sbrk, ring, obtained)
        decreases !grown, |ring| - s
      {
        LinkedNext(ptr, size, ring, Next(|ring|, i));
        if size[p] >= nunits {
          var q;
          q, f := TakeFound(prevp, p, nunits, i, s, grown, r0, obtained0, sbrk);
          return Block(q + 1), f;
        }
        if p == freep {
          WentRound(ring, cur, nunits, s);
          if grown { GrownMeans(r0, obtained0, nunits, sbrk, ring, obtained); }
          assert !grown;
          if SbrkBytes(Grab(nunits)) <= 0 { return Shrinks, f; }
          p := AskMore(nunits, sbrk);
          if p == 0 { return NoMemory, f; }
          grown, i, s := true, cur, 0;
        } else {
          StepOn(ring, cur, nunits, s);
          i, s := Next(|ring|, i), s + 1;
        }
        LinkedNext(ptr, size, ring, i);
        prevp, p := p, ptr[p];
      }
      r := NoMemory;
    }

    method StartList()
      requires Valid() && freep == 0
      modifies this`freep, this`ptr, this`size, this`cur
      ensures Valid() && freep != 0 && cur == 0
    {
      freep := base;
      ptr := ptr[base := base];
      size := size[base := 0];
      cur := 0;
    }

    /** The loop of free: around the circle to the last chunk below bp. */
    method FindPlace(bp: nat) returns (p: nat)
      requires Core() && ring[0].addr < bp && forall k :: 0 <= k < |ring| ==> ring[k].addr != bp
      ensures p == ring[Position(ring, bp)].addr
    {
      p := freep;
      ghost var i: nat, j: nat := cur, Position(ring, bp);
      LinkedNext(ptr, size, ring, i);
      StopsAt(ring, bp, i, p, ptr[p]);
      hide Canonical, Linked;
      while !(bp > p && bp < ptr[p])
        invariant i < |ring| && |ptr| == UNITS && p == ring[i].addr && p < UNITS
        invariant ptr[p] == ring[Next(|ring|, i)].addr
        invariant (p < bp < ptr[p] || (p >= ptr[p] && (bp > p || bp < ptr[p]))) <==> i == j
        decreases Distance(|ring|, i, j)
      {
        if p >= ptr[p] && (bp > p || bp < ptr[p]) { break; }
        p, i := ptr[p], Next(|ring|, i);
        LinkedNext(ptr, size, ring, i);
        StopsAt(ring, bp, i, p, ptr[p]);
      }
    }
  }

  lemma LinkedNext(ptr: seq<nat>, size: seq<nat>, r: seq<Chunk>, i: nat)
    requires Linked(ptr, size, r) && i < |r|
    ensures |ptr| == |size| == UNITS && r[i].addr < UNITS && ptr[r[i].addr] == r[Next(|r|, i)].addr
    ensures size[r[i].addr] == r[i].size
  {
    assert LinkedAt(ptr, size, r, i);
  }

  // ----- what free does to the blocks handed out -----

  lemma ClearHeader(r: seq<Chunk>, c: Chunk)
    requires Canonical(r) && Clear(r, c)
    ensures r[0].addr < c.addr && forall k :: 0 <= k < |r| ==> r[k].addr != c.addr
  {}

  predicate Apart(c: Chunk, x: Chunk) {
    c.End() <= x.addr || x.End() <= c.addr
  }

  /** What is clear of a list and of c is clear of the list with c put in. */
  lemma ClearAfterInsert(r: seq<Chunk>, c: Chunk, x: Chunk)
    requires Canonical(r) && Clear(r, c) && Clear(r, x) && Apart(c, x)
    ensures Clear(Inserted(r, c), x)
  {
    var j := Position(r, c.addr);
    Neighbours(r, c);
    assert j > 0 ==> Apart(r[j], x);
    assert j + 1 < |r| ==> Apart(r[j + 1], x);
    InsertedCanonical(r, c);
    hide Canonical, Position;
    ClearReplaced(r, Low(r, j, c), Joined(r, j, c), High(r, j, c), x);
  }

  lemma ClearReplaced(r: seq<Chunk>, m: nat, d: Chunk, skip: nat, x: Chunk)
    requires 0 < m <= skip <= |r| && Clear(r, x) && Apart(d, x)
    ensures Clear(Replaced(r, m, d, skip), x)
  {
    ReplacedAt(r, m, d, skip);
    hide Replaced;
  }

  lemma LiveAfterFree(r: seq<Chunk>, size: seq<nat>, live: map<nat, nat>, c: Chunk, p: nat, size': seq<nat>)
    requires Canonical(r) && |size| == |size'| == UNITS && LiveApart(r, size, live) && c.addr in live
    requires c.size == live[c.addr]
    requires p == r[Position(r, c.addr)].addr
    requires forall a :: 0 <= a < UNITS && a != c.addr && a != p ==> size'[a] == size[a]
    ensures LiveApart(Inserted(r, c), size', live - {c.addr})
  {
    var live' := live - {c.addr};
    forall a | a in live' ensures Clear(Inserted(r, c), Chunk(a, live'[a])) && a < UNITS && size'[a] == live'[a] {
      assert a in live;
      ClearHeader(r, Chunk(a, live[a]));
      ClearAfterInsert(r, c, Chunk(a, live[a]));
    }
  }

  lemma ConservedAfterFree(r: seq<Chunk>, live: map<nat, nat>, obtained: set<nat>, c: Chunk)
    requires Canonical(r) && Conserved(r, live, obtained) && c.addr in live && c.size == live[c.addr] && Clear(r, c)
    requires forall a, b :: a in live && b in live && a < b ==> a + live[a] <= b
    ensures Conserved(Inserted(r, c), live - {c.addr}, obtained)
  {
    var live' := live - {c.addr};
    forall u: nat ensures u in obtained <==> Has(Inserted(r, c), u) || InLive(live', u) {
      InsertedHas(r, c, u);
      if InLive(live, u) {
        var a :| a in live && a <= u < a + live[a];
        assert a != c.addr ==> a in live';
      }
      if InLive(live', u) {
        var a :| a in live' && a <= u < a + live'[a];
        assert a in live;
      }
      assert c.addr <= u < c.End() ==> InLive(live, u);
    }
  }

  /** The size in bp's header once it has been joined with the chunk behind it. */
  function SizeUp(ptr: seq<nat>, size: seq<nat>, p: nat, bp: nat): nat
    requires |ptr| == |size| == UNITS && p < UNITS && bp < UNITS && ptr[p] < UNITS
  {
    if bp + size[bp] == ptr[p] then size[bp] + size[ptr[p]] else size[bp]
  }

  function NextUp(ptr: seq<nat>, size: seq<nat>, p: nat, bp: nat): nat
    requires |ptr| == |size| == UNITS && p < UNITS && bp < UNITS && ptr[p] < UNITS
  {
    if bp + size[bp] == ptr[p] then ptr[ptr[p]] else ptr[p]
  }

  function PtrAfter(ptr: seq<nat>, size: seq<nat>, p: nat, bp: nat): (r: seq<nat>)
    requires |ptr| == |size| == UNITS && p < UNITS && bp < UNITS && ptr[p] < UNITS
  {
    ptr[bp := NextUp(ptr, size, p, bp)][p := if p + size[p] == bp then NextUp(ptr, size, p, bp) else bp]
  }

  function SizeAfter(ptr: seq<nat>, size: seq<nat>, p: nat, bp: nat): (r: seq<nat>)
    requires |ptr| == |size| == UNITS && p < UNITS && bp < UNITS && ptr[p] < UNITS
  {
    size[bp := SizeUp(ptr, size, p, bp)][p := if p + size[p] == bp then size[p] + SizeUp(ptr, size, p, bp) else size[p]]
  }

  /** What the end of free writes links the list with c in it. */
  lemma WritesLink(ptr: seq<nat>, size: seq<nat>, r: seq<Chunk>, c: Chunk)
    requires Canonical(r) && Linked(ptr, size, r) && Clear(r, c)
    requires |size| == UNITS && c.addr < UNITS && size[c.addr] == c.size
    ensures var j := Position(r, c.addr); var p := r[j].addr;
      && p < UNITS && p != c.addr && ptr[p] < UNITS && ptr[p] != c.addr
      && Linked(PtrAfter(ptr, size, p, c.addr), SizeAfter(ptr, size, p, c.addr), Inserted(r, c))
      && j < |Inserted(r, c)| && Inserted(r, c)[j].addr == p
  {
    Around(ptr, size, r, c);
    hide Canonical, Clear, Linked, Inserted, Position;
    var j := Position(r, c.addr);
    var p := r[j].addr;
    RewiredAfter(ptr, size, r, c);
    hide PtrAfter, SizeAfter, Rewired;
    LinkedInserted(ptr, size, r, c, PtrAfter(ptr, size, p, c.addr), SizeAfter(ptr, size, p, c.addr));
  }

  /** How the headers that free writes differ from those before. */
  ghost predicate Rewired(ptr: seq<nat>, size: seq<nat>, r: seq<Chunk>, j: nat, c: Chunk, ptr': seq<nat>,
                          size': seq<nat>)
    requires |ptr| == |size| == |ptr'| == |size'| == UNITS && j < |r|
  {
    var d, skip := Joined(r, j, c), High(r, j, c);
    && (forall a :: 0 <= a < UNITS && a != c.addr && a != r[j].addr ==> ptr'[a] == ptr[a] && size'[a] == size[a])
    && d.addr < UNITS && size'[d.addr] == d.size && ptr'[d.addr] == (if skip < |r| then r[skip].addr else r[0].addr)
    && (!JoinsDown(r, j, c) ==> r[j].addr < UNITS && ptr'[r[j].addr] == c.addr && size'[r[j].addr] == r[j].size)
  }

  lemma RewiredAfter(ptr: seq<nat>, size: seq<nat>, r: seq<Chunk>, c: Chunk)
    requires Canonical(r) && Linked(ptr, size, r) && Clear(r, c)
    requires |size| == UNITS && c.addr < UNITS && size[c.addr] == c.size
    ensures var j := Position(r, c.addr); var p := r[j].addr;
      && |ptr| == UNITS && p < UNITS && p != c.addr && ptr[p] < UNITS
      && Rewired(ptr, size, r, j, c, PtrAfter(ptr, size, p, c.addr), SizeAfter(ptr, size, p, c.addr))
  {
    assert |r| > 0 && r[0].addr < c.addr;
    hide Canonical, Clear, Linked, Position, PtrAfter, SizeAfter, JoinsUp, Rewired;
    Around(ptr, size, r, c);
    RewiredAt(ptr, size, r, Position(r, c.addr), c);
  }

  lemma RewiredAt(ptr: seq<nat>, size: seq<nat>, r: seq<Chunk>, j: nat, c: Chunk)
    requires |ptr| == |size| == UNITS && j < |r| && r[j].addr < UNITS && c.addr < UNITS && ptr[r[j].addr] < UNITS
    requires r[j].addr != c.addr && size[c.addr] == c.size && size[r[j].addr] == r[j].size
    requires c.End() == ptr[r[j].addr] <==> JoinsUp(r, j, c)
    requires JoinsUp(r, j, c) ==> size[ptr[r[j].addr]] == r[j + 1].size
    requires JoinsUp(r, j, c) ==> ptr[ptr[r[j].addr]] == if j + 2 < |r| then r[j + 2].addr else r[0].addr
    requires !JoinsUp(r, j, c) ==> ptr[r[j].addr] == if j + 1 < |r| then r[j + 1].addr else r[0].addr
    ensures Rewired(ptr, size, r, j, c, PtrAfter(ptr, size, r[j].addr, c.addr), SizeAfter(ptr, size, r[j].addr, c.addr))
  {
    AfterAt(ptr, size, r[j].addr, c.addr);
    UpIs(ptr, size, r, j, c);
    AddrOfJoined(r, j, c);
    hide PtrAfter, SizeAfter, NextUp, SizeUp, JoinsUp, JoinsDown, High, Joined;
  }

  /** The successor that free finds: the chunk behind c, or the one behind that if c touches it. */
  lemma UpIs(ptr: seq<nat>, size: seq<nat>, r: seq<Chunk>, j: nat, c: Chunk)
    requires |ptr| == |size| == UNITS && j < |r| && r[j].addr < UNITS && c.addr < UNITS && ptr[r[j].addr] < UNITS
    requires size[c.addr] == c.size && (c.End() == ptr[r[j].addr] <==> JoinsUp(r, j, c))
    requires JoinsUp(r, j, c) ==> size[ptr[r[j].addr]] == r[j + 1].size
    requires JoinsUp(r, j, c) ==> ptr[ptr[r[j].addr]] == if j + 2 < |r| then r[j + 2].addr else r[0].addr
    requires !JoinsUp(r, j, c) ==> ptr[r[j].addr] == if j + 1 < |r| then r[j + 1].addr else r[0].addr
    ensures NextUp(ptr, size, r[j].addr, c.addr) == if High(r, j, c) < |r| then r[High(r, j, c)].addr else r[0].addr
    ensures SizeUp(ptr, size, r[j].addr, c.addr) == c.size + if JoinsUp(r, j, c) then r[j + 1].size else 0
  {}

  lemma AddrOfJoined(r: seq<Chunk>, j: nat, c: Chunk)
    requires j < |r|
    ensures JoinsDown(r, j, c) <==> r[j].addr + r[j].size == c.addr
    ensures Joined(r, j, c).addr == if JoinsDown(r, j, c) then r[j].addr else c.addr
    ensures Joined(r, j, c).size ==
      (if JoinsDown(r, j, c) then r[j].size else 0) + c.size + (if JoinsUp(r, j, c) then r[j + 1].size else 0)
  {}

  lemma AfterAt(ptr: seq<nat>, size: seq<nat>, p: nat, bp: nat)
    requires |ptr| == |size| == UNITS && p < UNITS && bp < UNITS && ptr[p] < UNITS && p != bp
    ensures var ptr', size' := PtrAfter(ptr, size, p, bp), SizeAfter(ptr, size, p, bp);
      && |ptr'| == |size'| == UNITS
      && ptr'[bp] == NextUp(ptr, size, p, bp) && size'[bp] == SizeUp(ptr, size, p, bp)
      && (p + size[p] == bp ==> ptr'[p] == NextUp(ptr, size, p, bp) && size'[p] == size[p] + SizeUp(ptr, size, p, bp))
      && (p + size[p] != bp ==> ptr'[p] == bp && size'[p] == size[p])
      && forall a :: 0 <= a < UNITS && a != bp && a != p ==> ptr'[a] == ptr[a] && size'[a] == size[a]
  {}

  /** What the end of free finds in the headers of p and of its successor. */
  lemma Around(ptr: seq<nat>, size: seq<nat>, r: seq<Chunk>, c: Chunk)
    requires Canonical(r) && Linked(ptr, size, r) && Clear(r, c)
    ensures var j := Position(r, c.addr); var p := r[j].addr;
      && |ptr| == |size| == UNITS
      && p < c.addr < UNITS && size[p] == r[j].size && ptr[p] < UNITS && ptr[p] != c.addr
      && (c.End() == ptr[p] <==> JoinsUp(r, j, c))
      && (JoinsUp(r, j, c) ==> size[ptr[p]] == r[j + 1].size)
      && (JoinsUp(r, j, c) ==> ptr[ptr[p]] == if j + 2 < |r| then r[j + 2].addr else r[0].addr)
      && (!JoinsUp(r, j, c) ==> ptr[p] == if j + 1 < |r| then r[j + 1].addr else r[0].addr)
  {
    var j := Position(r, c.addr);
    assert LinkedAt(ptr, size, r, j) && LinkedAt(ptr, size, r, Next(|r|, j));
    OneHeader(r, j, Next(|r|, j));
  }

  /** The new headers link the list with c put back. */
  lemma LinkedInserted(ptr: seq<nat>, size: seq<nat>, r: seq<Chunk>, c: Chunk, ptr': seq<nat>, size': seq<nat>)
    requires Canonical(r) && Linked(ptr, size, r) && Clear(r, c) && |ptr'| == |size'| == UNITS
    requires |ptr| == |size| == UNITS && Rewired(ptr, size, r, Position(r, c.addr), c, ptr', size')
    ensures Linked(ptr', size', Inserted(r, c))
    ensures Position(r, c.addr) < |Inserted(r, c)|
    ensures Inserted(r, c)[Position(r, c.addr)].addr == r[Position(r, c.addr)].addr
  {
    var j := Position(r, c.addr);
    var m, d, skip := Low(r, j, c), Joined(r, j, c), High(r, j, c);
    Neighbours(r, c);
    InsertedCanonical(r, c);
    ReplacedAt(r, m, d, skip);
    hide Canonical;
    forall k | 0 <= k < |r| && (k < m || k >= skip)
      ensures r[k].addr < UNITS && size'[r[k].addr] == r[k].size
      ensures ptr'[r[k].addr] == if k == m - 1 then d.addr else r[Next(|r|, k)].addr
    {
      assert LinkedAt(ptr, size, r, k);
      OneHeader(r, k, j);
      assert r[k].addr != c.addr;
    }
    LinkedReplaced(r, m, d, skip, ptr', size');
  }

  lemma LinkedReplaced(r: seq<Chunk>, m: nat, d: Chunk, skip: nat, ptr: seq<nat>, size: seq<nat>)
    requires 0 < m <= skip <= |r| && |ptr| == |size| == UNITS
    requires forall k :: 0 <= k < |r| && (k < m || k >= skip) ==>
      && r[k].addr < UNITS && size[r[k].addr] == r[k].size
      && ptr[r[k].addr] == if k == m - 1 then d.addr else r[Next(|r|, k)].addr
    requires d.addr < UNITS && size[d.addr] == d.size && ptr[d.addr] == (if skip < |r| then r[skip].addr else r[0].addr)
    ensures Linked(ptr, size, Replaced(r, m, d, skip))
  {
    ReplacedAt(r, m, d, skip);
    var s := Replaced(r, m, d, skip);
    hide Replaced;
    forall k | 0 <= k < |s| ensures LinkedAt(ptr, size, s, k) {
      if k < m {
        assert r[k].addr < UNITS;
      } else if k > m {
        assert r[k - m - 1 + skip].addr < UNITS;
      }
    }
  }

  // ----- what sbrk and malloc do to the blocks handed out -----

  /** New memory counts as one more block handed out, until morecore frees it. */
  lemma NewLive(ptr: seq<nat>, size: seq<nat>, r: seq<Chunk>, live: map<nat, nat>, obtained: set<nat>, hp: nat, nu: nat)
    requires Canonical(r) && Linked(ptr, size, r) && |size| == UNITS && LiveApart(r, size, live)
    requires Conserved(r, live, obtained)
    requires nu > 0 && Granted(r, obtained, At(hp), nu)
    ensures hp !in live && Linked(ptr, size[hp := nu], r)
    ensures LiveApart(r, size[hp := nu], live[hp := nu])
    ensures Conserved(r, live[hp := nu], obtained + Range(hp, nu))
  {
    forall k | 0 < k < |r| ensures r[k].End() <= hp {
      assert r[k].addr <= r[k].End() - 1 < r[k].End();
      assert Has(r, r[k].End() - 1);
    }
    forall a | a in live ensures a + live[a] <= hp && live[a] > 0 {
      assert Clear(r, Chunk(a, live[a]));
      assert InLive(live, a + live[a] - 1);
    }
    var size' := size[hp := nu];
    forall k | 0 <= k < |r| ensures LinkedAt(ptr, size', r, k) {
      assert LinkedAt(ptr, size, r, k);
    }
    var live' := live[hp := nu];
    forall u: nat ensures InLive(live', u) <==> InLive(live, u) || u in Range(hp, nu) {
      if InLive(live, u) {
        var a :| a in live && a <= u < a + live[a];
        assert a in live' && live'[a] == live[a];
      }
      if u in Range(hp, nu) { assert hp in live'; }
    }
  }

  lemma AddedRemoved(m: map<nat, nat>, k: nat, v: nat)
    requires k !in m
    ensures m[k := v] - {k} == m
  {}

  lemma LinkedAfterCarve(ptr: seq<nat>, size: seq<nat>, r: seq<Chunk>, f: nat, n: nat)
    requires Canonical(r) && Linked(ptr, size, r) && 0 < f < |r| && 0 < n <= r[f].size
    ensures |ptr| == |size| == UNITS && r[f].addr < UNITS && r[f - 1].addr < UNITS && Carved(r, f, n).addr < UNITS
    ensures r[f].size == n ==> Linked(ptr[r[f - 1].addr := ptr[r[f].addr]], size, Carve(r, f, n))
    ensures r[f].size > n ==> Linked(ptr, size[r[f].addr := r[f].size - n][Carved(r, f, n).addr := n], Carve(r, f, n))
  {
    LinkedNext(ptr, size, r, f);
    LinkedNext(ptr, size, r, f - 1);
    if r[f].size == n { LinkedWithout(ptr, size, r, f); } else { LinkedShrunk(ptr, size, r, f, n); }
  }

  lemma LinkedWithout(ptr: seq<nat>, size: seq<nat>, r: seq<Chunk>, f: nat)
    requires Canonical(r) && Linked(ptr, size, r) && 0 < f < |r| && r[f - 1].addr < UNITS && r[f].addr < UNITS
    ensures Linked(ptr[r[f - 1].addr := ptr[r[f].addr]], size, r[..f] + r[f + 1..])
  {
    LinkedNext(ptr, size, r, f);
    var s := r[..f] + r[f + 1..];
    var ptr' := ptr[r[f - 1].addr := ptr[r[f].addr]];
    forall k | 0 <= k < |s| ensures LinkedAt(ptr', size, s, k) {
      LinkedNext(ptr, size, r, Behind(f, k));
      OneHeader(r, Behind(f, k), f - 1);
      LinkedWithoutAt(ptr, size, r, f, k);
    }
  }

  lemma LinkedWithoutAt(ptr: seq<nat>, size: seq<nat>, r: seq<Chunk>, f: nat, k: nat)
    requires 0 < f < |r| && k < |r| - 1 && |ptr| == |size| == UNITS
    requires r[f - 1].addr < UNITS && r[f].addr < UNITS && ptr[r[f].addr] == r[Next(|r|, f)].addr
    requires LinkedAt(ptr, size, r, Behind(f, k)) && (r[Behind(f, k)].addr == r[f - 1].addr <==> Behind(f, k) == f - 1)
    ensures LinkedAt(ptr[r[f - 1].addr := ptr[r[f].addr]], size, r[..f] + r[f + 1..], k)
  {
    WithoutAt(r, f, k);
    WithoutAt(r, f, Next(|r| - 1, k));
  }

  lemma WithoutAt(r: seq<Chunk>, f: nat, k: nat)
    requires f < |r| && k < |r| - 1
    ensures |r[..f] + r[f + 1..]| == |r| - 1 && (r[..f] + r[f + 1..])[k] == r[Behind(f, k)]
  {}

  lemma LinkedShrunk(ptr: seq<nat>, size: seq<nat>, r: seq<Chunk>, f: nat, n: nat)
    requires Canonical(r) && Linked(ptr, size, r) && |size| == UNITS && 0 < f < |r| && 0 < n < r[f].size
    requires r[f].addr < UNITS && Carved(r, f, n).addr < UNITS
    ensures Linked(ptr, size[r[f].addr := r[f].size - n][Carved(r, f, n).addr := n],
      r[f := Chunk(r[f].addr, r[f].size - n)])
  {
    var s := r[f := Chunk(r[f].addr, r[f].size - n)];
    var size' := size[r[f].addr := r[f].size - n][Carved(r, f, n).addr := n];
    forall k | 0 <= k < |s| ensures LinkedAt(ptr, size', s, k) {
      LinkedNext(ptr, size, r, k);
      OneHeader(r, k, f);
      CarvedHeader(r, f, n, k);
      hide Canonical, Linked;
    }
  }

  /** The header of the units taken is no free chunk's, unless the whole chunk was taken. */
  lemma CarvedHeader(r: seq<Chunk>, f: nat, n: nat, i: nat)
    requires Canonical(r) && 0 < f < |r| && 0 < n < r[f].size && i < |r|
    ensures r[i].addr != Carved(r, f, n).addr
  {
    if i < f { assert r[i].addr + r[i].size < r[f].addr; }
    if f < i { assert r[f].addr + r[f].size < r[i].addr; }
  }

  lemma LiveAfterCarve(r: seq<Chunk>, size: seq<nat>, live: map<nat, nat>, f: nat, n: nat)
    requires Canonical(r) && |size| == UNITS && LiveApart(r, size, live) && 0 < f < |r| && 0 < n <= r[f].size
    requires size[r[f].addr] == r[f].size
    ensures var c := Carved(r, f, n);
      && c.addr !in live && c.addr < UNITS && r[f].addr !in live
      && (r[f].size == n ==> LiveApart(Carve(r, f, n), size, live[c.addr := n]))
      && (r[f].size > n ==> LiveApart(Carve(r, f, n), size[r[f].addr := r[f].size - n][c.addr := n], live[c.addr := n]))
  {
    var c, s := Carved(r, f, n), Carve(r, f, n);
    CarveCanonical(r, f, n);
    forall a | a in live ensures Clear(s, Chunk(a, live[a])) && Apart(r[f], Chunk(a, live[a])) {
      ClearAfterCarve(r, f, n, Chunk(a, live[a]));
    }
  }

  lemma ClearAfterCarve(r: seq<Chunk>, f: nat, n: nat, x: Chunk)
    requires Canonical(r) && 0 < f < |r| && 0 < n <= r[f].size && Clear(r, x)
    ensures Clear(Carve(r, f, n), x) && Apart(r[f], x)
  {
    var s := Carve(r, f, n);
    assert Apart(r[f], x);
    if r[f].size == n { assert forall k :: 0 <= k < |s| ==> s[k] == r[Behind(f, k)]; }
  }

  lemma ConservedAfterCarve(r: seq<Chunk>, live: map<nat, nat>, obtained: set<nat>, f: nat, n: nat)
    requires Canonical(r) && Conserved(r, live, obtained) && 0 < f < |r| && 0 < n <= r[f].size
    requires Carved(r, f, n).addr !in live
    ensures Conserved(Carve(r, f, n), live[Carved(r, f, n).addr := n], obtained)
  {
    var c := Carved(r, f, n);
    var live' := live[c.addr := n];
    forall u: nat ensures u in obtained <==> Has(Carve(r, f, n), u) || InLive(live', u) {
      CarveHas(r, f, n, u);
      if InLive(live, u) {
        var a :| a in live && a <= u < a + live[a];
        assert a in live' && live'[a] == live[a];
      }
      assert c.addr <= u < c.End() ==> c.addr in live' && InLive(live', u);
    }
  }
}
