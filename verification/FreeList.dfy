/** The free list of the user-level allocator (umalloc.c): Kernighan and Ritchie's circular,
    address-sorted list. Addresses count units of sizeof(Header) = 8 bytes; a block starts with its
    one-unit header. */
module FreeList {
  const UNITS: nat := 0x2000_0000    // units in a 32-bit address space

  /** A stretch of free memory: its header's address and its length with the header. */
  datatype Chunk = Chunk(addr: nat, size: nat) {
    function End(): nat { addr + size }
  }

  /** The free list from `base` on: the static header of size 0 is lowest, the rest lies above it in
      address order, and no two chunks overlap or touch. */
  ghost predicate Canonical(r: seq<Chunk>) {
    && |r| > 0 && r[0].size == 0 && r[0].addr > 0
    && (forall k :: 0 < k < |r| ==> r[k].size > 0)
    && (forall i, j :: 0 <= i < j < |r| ==> r[i].addr + r[i].size < r[j].addr)
    && (forall k :: 0 <= k < |r| ==> r[k].addr < UNITS && r[k].End() <= UNITS)
  }

  /** Unit u is free. */
  ghost predicate Has(r: seq<Chunk>, u: nat) {
    exists k :: 0 <= k < |r| && r[k].addr <= u < r[k].End()
  }

  function Total(r: seq<Chunk>): nat {
    if |r| == 0 then 0 else Total(r[..|r| - 1]) + r[|r| - 1].size
  }

  lemma {:induction false} TotalConcat(a: seq<Chunk>, b: seq<Chunk>)
    ensures Total(a + b) == Total(a) + Total(b)
  {
    if |b| == 0 {
      assert a + b == a;
    } else {
      TotalConcat(a, b[..|b| - 1]);
      assert (a + b)[..|a + b| - 1] == a + b[..|b| - 1];
    }
  }

  lemma TotalOne(c: Chunk)
    ensures Total([c]) == c.size
  {
    assert [c][..0] == [];
  }

  /** c is above the list's start and overlaps nothing in it. */
  ghost predicate Clear(r: seq<Chunk>, c: Chunk) {
    && |r| > 0 && c.size > 0 && c.End() <= UNITS
    && r[0].addr < c.addr
    && forall k :: 0 < k < |r| ==> r[k].End() <= c.addr || c.End() <= r[k].addr
  }

  /** The last chunk below address a. */
  function Position(r: seq<Chunk>, a: nat): (j: nat)
    requires |r| > 0 && r[0].addr < a
    ensures j < |r| && r[j].addr < a
    ensures j + 1 < |r| ==> a <= r[j + 1].addr
    decreases |r|
  {
    if |r| == 1 || r[|r| - 1].addr < a then |r| - 1 else Position(r[..|r| - 1], a)
  }

  /** The list with the chunks from m up to `skip` replaced by d. */
  function Replaced(r: seq<Chunk>, m: nat, d: Chunk, skip: nat): (s: seq<Chunk>)
    requires m <= skip <= |r|
  {
    r[..m] + [d] + r[skip..]
  }

  lemma ReplacedAt(r: seq<Chunk>, m: nat, d: Chunk, skip: nat)
    requires m <= skip <= |r|
    ensures var s := Replaced(r, m, d, skip);
      && |s| == m + 1 + |r| - skip && s[m] == d
      && (forall k :: 0 <= k < m ==> s[k] == r[k])
      && (forall k :: m < k < |s| ==> s[k] == r[k - m - 1 + skip])
  {}

  predicate JoinsDown(r: seq<Chunk>, j: nat, c: Chunk)
    requires j < |r|
  {
    r[j].End() == c.addr
  }

  predicate JoinsUp(r: seq<Chunk>, j: nat, c: Chunk)
    requires j < |r|
  {
    j + 1 < |r| && c.End() == r[j + 1].addr
  }

  /** c with the neighbours that it touches. */
  function Joined(r: seq<Chunk>, j: nat, c: Chunk): (d: Chunk)
    requires j < |r|
  {
    Chunk(if JoinsDown(r, j, c) then r[j].addr else c.addr,
          (if JoinsDown(r, j, c) then r[j].size else 0) + c.size + (if JoinsUp(r, j, c) then r[j + 1].size else 0))
  }

  function Low(r: seq<Chunk>, j: nat, c: Chunk): (m: nat)
    requires j < |r|
  {
    if JoinsDown(r, j, c) then j else j + 1
  }

  function High(r: seq<Chunk>, j: nat, c: Chunk): (m: nat)
    requires j < |r|
    ensures m <= |r|
  {
    if JoinsUp(r, j, c) then j + 2 else j + 1
  }

  /** The list after c has been given back behind chunk j, joined with its neighbours if they touch. */
  function InsertAt(r: seq<Chunk>, j: nat, c: Chunk): (s: seq<Chunk>)
    requires j < |r|
  {
    Replaced(r, Low(r, j, c), Joined(r, j, c), High(r, j, c))
  }

  function Inserted(r: seq<Chunk>, c: Chunk): (s: seq<Chunk>)
    requires |r| > 0 && r[0].addr < c.addr
  {
    InsertAt(r, Position(r, c.addr), c)
  }

  /** Where c goes it overlaps no neighbour, and a neighbour that it does not touch keeps a distance. */
  lemma Neighbours(r: seq<Chunk>, c: Chunk)
    requires Canonical(r) && Clear(r, c)
    ensures var j := Position(r, c.addr);
      && r[j].End() <= c.addr && (j + 1 < |r| ==> c.End() <= r[j + 1].addr)
      && (JoinsDown(r, j, c) ==> j > 0)
  {
    var j := Position(r, c.addr);
    assert j > 0 ==> r[j].End() <= c.addr;
    assert j + 1 < |r| ==> r[j + 1].size > 0;
    assert j + 1 < |r| ==> c.End() <= r[j + 1].addr;
  }

  lemma ReplacedCanonical(r: seq<Chunk>, m: nat, d: Chunk, skip: nat)
    requires Canonical(r) && 0 < m <= skip <= |r| && d.size > 0 && d.End() <= UNITS
    requires r[m - 1].End() < d.addr && (skip < |r| ==> d.End() < r[skip].addr)
    ensures Canonical(Replaced(r, m, d, skip)) && Replaced(r, m, d, skip)[0] == r[0]
  {
    var s := Replaced(r, m, d, skip);
    ReplacedAt(r, m, d, skip);
    hide Replaced;
    forall i, j | 0 <= i < j < |s| ensures s[i].addr + s[i].size < s[j].addr {
      if j == m {
        assert i < m - 1 ==> r[i].addr + r[i].size < r[m - 1].addr;
      } else if i == m {
        assert skip < j - m - 1 + skip ==> r[skip].addr + r[skip].size < r[j - m - 1 + skip].addr;
      }
    }
  }

  /** Giving back a chunk keeps the list canonical. */
  lemma InsertedCanonical(r: seq<Chunk>, c: Chunk)
    requires Canonical(r) && Clear(r, c)
    ensures Canonical(Inserted(r, c)) && Inserted(r, c)[0] == r[0]
  {
    var j := Position(r, c.addr);
    Neighbours(r, c);
    var m, d, skip := Low(r, j, c), Joined(r, j, c), High(r, j, c);
    assert m == j ==> r[m - 1].addr + r[m - 1].size < r[j].addr;
    assert skip == j + 2 && skip < |r| ==> r[j + 1].addr + r[j + 1].size < r[skip].addr;
    ReplacedCanonical(r, m, d, skip);
  }

  /** Giving back a chunk adds exactly its units to the free ones. */
  lemma InsertedHas(r: seq<Chunk>, c: Chunk, u: nat)
    requires Canonical(r) && Clear(r, c)
    ensures Has(Inserted(r, c), u) <==> Has(r, u) || c.addr <= u < c.End()
  {
    var j := Position(r, c.addr);
    Neighbours(r, c);
    hide Canonical, Clear;
    JoinedRange(r, j, c, u);
    HasSplit(r, j, c, u);
    hide Has, Joined, JoinsDown, JoinsUp, Low, High, Replaced;
    InHasKept(r, Low(r, j, c), Joined(r, j, c), High(r, j, c), u);
  }

  /** The joined chunk is c and the neighbours that it touches. */
  lemma JoinedRange(r: seq<Chunk>, j: nat, c: Chunk, u: nat)
    requires j < |r|
    ensures Joined(r, j, c).addr <= u < Joined(r, j, c).End() <==>
      || c.addr <= u < c.End()
      || (JoinsDown(r, j, c) && r[j].addr <= u < r[j].End())
      || (JoinsUp(r, j, c) && r[j + 1].addr <= u < r[j + 1].End())
  {}

  /** The other chunks are kept. */
  lemma HasSplit(r: seq<Chunk>, j: nat, c: Chunk, u: nat)
    requires j < |r|
    ensures Low(r, j, c) <= High(r, j, c)
    ensures Has(r, u) <==>
      || (JoinsDown(r, j, c) && r[j].addr <= u < r[j].End())
      || (JoinsUp(r, j, c) && r[j + 1].addr <= u < r[j + 1].End())
      || HasKept(r, Low(r, j, c), High(r, j, c), u)
  {}

  ghost predicate HasKept(r: seq<Chunk>, m: nat, skip: nat, u: nat) {
    exists k :: (0 <= k < m || skip <= k < |r|) && k < |r| && r[k].addr <= u < r[k].End()
  }

  lemma InHasKept(r: seq<Chunk>, m: nat, d: Chunk, skip: nat, u: nat)
    requires m <= skip <= |r|
    ensures Has(Replaced(r, m, d, skip), u) <==>
      d.addr <= u < d.End() || HasKept(r, m, skip, u)
  {
    var s := Replaced(r, m, d, skip);
    ReplacedAt(r, m, d, skip);
    if Has(s, u) {
      var k :| 0 <= k < |s| && s[k].addr <= u < s[k].End();
      if k < m { assert r[k].addr <= u < r[k].End(); }
      if k > m { assert r[k - m - 1 + skip].addr <= u < r[k - m - 1 + skip].End(); }
    }
    if d.addr <= u < d.End() { assert s[m] == d; }
    if k :| (0 <= k < m || skip <= k < |r|) && r[k].addr <= u < r[k].End() {
      assert k < m ==> s[k] == r[k];
      assert k >= skip ==> s[k - skip + m + 1] == r[k];
    }
  }

  lemma InsertedTotal(r: seq<Chunk>, c: Chunk)
    requires |r| > 0 && r[0].addr < c.addr
    ensures Total(Inserted(r, c)) == Total(r) + c.size
  {
    var j := Position(r, c.addr);
    TotalMiddle(r, j, c);
    ReplacedTotal(r, Low(r, j, c), Joined(r, j, c), High(r, j, c));
  }

  lemma TotalMiddle(r: seq<Chunk>, j: nat, c: Chunk)
    requires j < |r|
    ensures Low(r, j, c) <= High(r, j, c)
    ensures Total(r[Low(r, j, c)..High(r, j, c)]) + c.size == Joined(r, j, c).size
  {
    TotalOne(r[j]);
    var mid := r[Low(r, j, c)..High(r, j, c)];
    if JoinsDown(r, j, c) {
      assert JoinsUp(r, j, c) ==> mid == [r[j], r[j + 1]] && mid[..1] == [r[j]];
      assert !JoinsUp(r, j, c) ==> mid == [r[j]];
    } else if JoinsUp(r, j, c) {
      assert mid == [r[j + 1]];
      TotalOne(r[j + 1]);
    }
  }

  lemma ReplacedTotal(r: seq<Chunk>, m: nat, d: Chunk, skip: nat)
    requires m <= skip <= |r|
    ensures Total(Replaced(r, m, d, skip)) + Total(r[m..skip]) == Total(r) + d.size
  {
    TotalThree(r[..m], [d], r[skip..]);
    TotalOne(d);
    TotalSplit(r, m, skip);
  }

  lemma TotalSplit(r: seq<Chunk>, m: nat, skip: nat)
    requires m <= skip <= |r|
    ensures Total(r) == Total(r[..m]) + Total(r[m..skip]) + Total(r[skip..])
  {
    hide Total;
    assert r == r[..m] + r[m..skip] + r[skip..];
    TotalThree(r[..m], r[m..skip], r[skip..]);
  }

  lemma TotalThree(a: seq<Chunk>, b: seq<Chunk>, c: seq<Chunk>)
    ensures Total(a + b + c) == Total(a) + Total(b) + Total(c)
  {
    TotalConcat(a + b, c);
    TotalConcat(a, b);
  }

  /** The list after n units have been taken from the end of chunk f. */
  function Carve(r: seq<Chunk>, f: nat, n: nat): (s: seq<Chunk>)
    requires f < |r| && n <= r[f].size
  {
    if r[f].size == n then r[..f] + r[f + 1..]
    else r[f := Chunk(r[f].addr, r[f].size - n)]
  }

  /** The units taken. */
  function Carved(r: seq<Chunk>, f: nat, n: nat): (c: Chunk)
    requires f < |r| && n <= r[f].size
  {
    Chunk(r[f].addr + r[f].size - n, n)
  }

  lemma CarveCanonical(r: seq<Chunk>, f: nat, n: nat)
    requires Canonical(r) && 0 < f < |r| && 0 < n <= r[f].size
    ensures Canonical(Carve(r, f, n)) && Carve(r, f, n)[0] == r[0]
    ensures Clear(Carve(r, f, n), Carved(r, f, n))
  {
    if r[f].size == n { CarveWhole(r, f); } else { CarveTail(r, f, n); }
  }

  lemma CarveWhole(r: seq<Chunk>, f: nat)
    requires Canonical(r) && 0 < f < |r|
    ensures var s := r[..f] + r[f + 1..]; Canonical(s) && s[0] == r[0] && Clear(s, r[f])
  {
    var s := r[..f] + r[f + 1..];
    assert forall k :: 0 <= k < |s| ==> s[k] == r[Behind(f, k)];
    forall i, j | 0 <= i < j < |s| ensures s[i].addr + s[i].size < s[j].addr {
      assert Behind(f, i) < Behind(f, j);
    }
    forall k | 0 < k < |s| ensures s[k].End() <= r[f].addr || r[f].End() <= s[k].addr {
      assert Behind(f, k) < f || f < Behind(f, k);
    }
  }

  /** Where the k-th chunk of a list without its f-th was. */
  function Behind(f: nat, k: nat): nat { if k < f then k else k + 1 }

  lemma CarveTail(r: seq<Chunk>, f: nat, n: nat)
    requires Canonical(r) && 0 < f < |r| && 0 < n < r[f].size
    ensures var s := r[f := Chunk(r[f].addr, r[f].size - n)]; Canonical(s) && s[0] == r[0] && Clear(s, Carved(r, f, n))
  {
    var s, c := r[f := Chunk(r[f].addr, r[f].size - n)], Carved(r, f, n);
    forall k | 0 < k < |s| ensures s[k].End() <= c.addr || c.End() <= s[k].addr {
      if f < k { assert r[f].addr + r[f].size < r[k].addr; }
      if k < f { assert r[k].addr + r[k].size < r[f].addr; }
    }
  }

  lemma CarveHas(r: seq<Chunk>, f: nat, n: nat, u: nat)
    requires Canonical(r) && 0 < f < |r| && 0 < n <= r[f].size
    ensures Has(Carve(r, f, n), u) <==> Has(r, u) && !(Carved(r, f, n).addr <= u < Carved(r, f, n).End())
    ensures Carved(r, f, n).addr <= u < Carved(r, f, n).End() ==> Has(r, u)
  {
    CarveInsert(r, f, n);
    CarveCanonical(r, f, n);
    var s, c := Carve(r, f, n), Carved(r, f, n);
    InsertedHas(s, c, u);
    if Has(s, u) { ClearHas(s, c, u); }
  }

  /** A chunk that is clear of the list shares no unit with it. */
  lemma ClearHas(r: seq<Chunk>, c: Chunk, u: nat)
    requires Canonical(r) && Clear(r, c) && Has(r, u)
    ensures !(c.addr <= u < c.End())
  {}

  /** Giving back what has just been taken restores the very same free list. */
  lemma CarveInsert(r: seq<Chunk>, f: nat, n: nat)
    requires Canonical(r) && 0 < f < |r| && 0 < n <= r[f].size
    ensures Clear(Carve(r, f, n), Carved(r, f, n))
    ensures Inserted(Carve(r, f, n), Carved(r, f, n)) == r
  {
    CarveCanonical(r, f, n);
    Gaps(r, f);
    var s, c := Carve(r, f, n), Carved(r, f, n);
    if r[f].size == n {
      CarveAll(r, s, f);
    } else {
      CarvePart(r, s, f, n);
    }
  }

  lemma CarvePart(r: seq<Chunk>, s: seq<Chunk>, f: nat, n: nat)
    requires Canonical(r) && Canonical(s) && 0 < f < |r| && 0 < n < r[f].size
    requires s == r[f := Chunk(r[f].addr, r[f].size - n)]
    ensures s[0].addr < Carved(r, f, n).addr && Inserted(s, Carved(r, f, n)) == r
  {
    Gaps(r, f);
    hide Canonical, Inserted;
    var a, x, b := r[..f], s[f], r[f + 1..];
    UpdateSplit(r, f, x);
    UpdateSplit(r, f, r[f]);
    InsertOnto(a, x, Carved(r, f, n), b);
  }

  lemma UpdateSplit(r: seq<Chunk>, f: nat, x: Chunk)
    requires f < |r|
    ensures r[f := x] == r[..f] + [x] + r[f + 1..]
    ensures f + 1 < |r| ==> r[f + 1..][0] == r[f + 1]
    ensures x == r[f] ==> r == r[..f] + [x] + r[f + 1..]
  {}

  lemma InsertOnto(a: seq<Chunk>, x: Chunk, c: Chunk, b: seq<Chunk>)
    requires Canonical(a + [x] + b) && x.End() == c.addr && x.size > 0 && (|b| > 0 ==> c.End() < b[0].addr)
    ensures (a + [x] + b)[0].addr < c.addr && Inserted(a + [x] + b, c) == a + [Chunk(x.addr, x.size + c.size)] + b
  {
    hide Canonical;
    var s, j := a + [x] + b, |a|;
    assert s[j] == x && s[..j] == a && s[j + 1..] == b;
    assert j + 1 < |s| ==> s[j + 1] == b[0];
    PositionIs(s, c.addr, j);
  }

  lemma CarveAll(r: seq<Chunk>, s: seq<Chunk>, f: nat)
    requires Canonical(r) && Canonical(s) && 0 < f < |r| && s == r[..f] + r[f + 1..]
    ensures s[0].addr < r[f].addr && Inserted(s, r[f]) == r
  {
    Gaps(r, f);
    hide Canonical, Inserted;
    UpdateSplit(r, f, r[f]);
    InsertBetween(r[..f], r[f], r[f + 1..]);
  }

  lemma InsertBetween(a: seq<Chunk>, c: Chunk, b: seq<Chunk>)
    requires Canonical(a + b) && |a| > 0 && a[|a| - 1].End() < c.addr && (|b| > 0 ==> c.End() < b[0].addr)
    ensures (a + b)[0].addr < c.addr && Inserted(a + b, c) == a + [c] + b
  {
    hide Canonical;
    var s, j := a + b, |a| - 1;
    assert s[j] == a[j] && s[..j + 1] == a && s[j + 1..] == b;
    assert j + 1 < |s| ==> s[j + 1] == b[0];
    PositionIs(s, c.addr, j);
  }

  lemma Gaps(r: seq<Chunk>, f: nat)
    requires Canonical(r) && 0 < f < |r|
    ensures r[f - 1].End() < r[f].addr && r[f].size > 0 && (f + 1 < |r| ==> r[f].End() < r[f + 1].addr)
  {
    assert r[f - 1].addr + r[f - 1].size < r[f].addr;
    assert f + 1 < |r| ==> r[f].addr + r[f].size < r[f + 1].addr;
  }

  lemma {:induction false} PositionIs(r: seq<Chunk>, a: nat, j: nat)
    requires Canonical(r) && j < |r| && r[j].addr < a && (j + 1 < |r| ==> a <= r[j + 1].addr)
    ensures r[0].addr < a && Position(r, a) == j
  {
    forall i, k | 0 <= i <= k < |r|
      ensures r[i].addr <= r[k].addr
    {
      assert i < k ==> r[i].addr + r[i].size < r[k].addr;
    }
    hide Canonical;
    var p := Position(r, a);
  }

  lemma CarveTotal(r: seq<Chunk>, f: nat, n: nat)
    requires Canonical(r) && 0 < f < |r| && 0 < n <= r[f].size
    ensures Total(Carve(r, f, n)) == Total(r) - n
  {
    CarveInsert(r, f, n);
    CarveCanonical(r, f, n);
    InsertedTotal(Carve(r, f, n), Carved(r, f, n));
  }

  /** The free list is determined by which units are free: there is only one way to keep them in
      order without touching chunks. */
  lemma {:induction false} CanonicalUnique(r: seq<Chunk>, s: seq<Chunk>)
    requires Canonical(r) && Canonical(s) && r[0] == s[0]
    requires forall u: nat :: Has(r, u) <==> Has(s, u)
    ensures r == s
    decreases |r|
  {
    hide Has, Canonical;
    OneMore(r, s);
    OneMore(s, r);
    if |r| > 1 {
      SameLast(r, s);
      SameLast(s, r);
      var r', s' := r[..|r| - 1], s[..|s| - 1];
      forall u: nat ensures Has(r', u) <==> Has(s', u) {
        HasInit(r, u);
        HasInit(s, u);
      }
      CanonicalInit(r);
      CanonicalInit(s);
      CanonicalUnique(r', s');
      assert r == r' + [r[|r| - 1]] && s == s' + [s[|s| - 1]];
    }
  }

  lemma CanonicalInit(r: seq<Chunk>)
    requires Canonical(r) && |r| > 1
    ensures Canonical(r[..|r| - 1]) && r[..|r| - 1][0] == r[0]
  {}

  lemma OneMore(r: seq<Chunk>, s: seq<Chunk>)
    requires Canonical(r) && Canonical(s)
    requires forall u: nat :: Has(r, u) <==> Has(s, u)
    ensures |r| > 1 ==> |s| > 1
    ensures |r| > 0 && |s| > 0
  {
    if |r| > 1 {
      assert r[1].addr <= r[1].addr < r[1].End();
      assert Has(r, r[1].addr) && Has(s, r[1].addr);
    }
  }

  lemma HasInit(r: seq<Chunk>, u: nat)
    requires Canonical(r) && |r| > 1
    ensures Has(r[..|r| - 1], u) <==> Has(r, u) && u < r[|r| - 1].addr
  {
    var r' := r[..|r| - 1];
    if Has(r', u) {
      var k :| 0 <= k < |r'| && r'[k].addr <= u < r'[k].End();
      assert r[k] == r'[k];
    }
    if Has(r, u) && u < r[|r| - 1].addr {
      var k :| 0 <= k < |r| && r[k].addr <= u < r[k].End();
      assert r'[k] == r[k];
    }
  }

  /** The last chunk of r lies within the last chunk of s. */
  lemma SameLast(r: seq<Chunk>, s: seq<Chunk>)
    requires Canonical(r) && Canonical(s) && |r| > 1 && |s| > 1
    requires forall u: nat :: Has(r, u) <==> Has(s, u)
    ensures s[|s| - 1].addr <= r[|r| - 1].addr && r[|r| - 1].End() <= s[|s| - 1].End()
  {
    var a, b := r[|r| - 1], s[|s| - 1];
    assert a.addr <= a.End() - 1 < a.End() && b.addr <= b.addr < b.End();
    assert Has(r, a.End() - 1) && Has(s, a.End() - 1);
    assert Has(s, b.addr) && Has(r, b.addr);
    BelowLast(s);
    assert !Has(r, b.addr - 1);
  }

  /** The unit below the last chunk is not free. */
  lemma BelowLast(r: seq<Chunk>)
    requires Canonical(r) && |r| > 1
    ensures r[|r| - 1].addr > 0 && !Has(r, r[|r| - 1].addr - 1)
  {
    forall k | 0 <= k < |r| - 1 ensures r[k].End() <= r[|r| - 1].addr - 1 {
      assert r[k].addr + r[k].size < r[|r| - 1].addr;
    }
  }
}
