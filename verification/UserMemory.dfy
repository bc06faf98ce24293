/** User memory as bytes: what a process sees at its addresses, and what writing bytes through its page
    tables does to that (copyout in vm.c). */
module UserMemory {
  import opened KernelMemory

  const KERNBASE: nat := 0x8000_0000
  const UINT_LIMIT: nat := 0x1_0000_0000

  type Uint = x: int | 0 <= x < UINT_LIMIT
  type Byte = x: int | 0 <= x < 256

  // ----- the bytes of a page -----

  function ByteOf(w: Word, k: nat): (b: Byte)
    requires k < 4
  {
    if k == 0 then w % 0x100
    else if k == 1 then w / 0x100 % 0x100
    else if k == 2 then w / 0x100 / 0x100 % 0x100
    else w / 0x100 / 0x100 / 0x100
  }

  function WordOf(a: Byte, b: Byte, c: Byte, d: Byte): (w: Word) {
    a + 0x100 * b + 0x1_0000 * c + 0x100_0000 * d
  }

  lemma ByteOfWord(a: Byte, b: Byte, c: Byte, d: Byte)
    ensures var w := WordOf(a, b, c, d);
      ByteOf(w, 0) == a && ByteOf(w, 1) == b && ByteOf(w, 2) == c && ByteOf(w, 3) == d
  {
    LowByte(a, b + 0x100 * c + 0x1_0000 * d);
    LowByte(b, c + 0x100 * d);
    LowByte(c, d);
  }

  lemma LowByte(b: Byte, w: nat)
    ensures (b + 0x100 * w) % 0x100 == b && (b + 0x100 * w) / 0x100 == w
  {}

  function Bytes(p: Page): (s: seq<Byte>)
    ensures |s| == PGSIZE
  {
    seq(PGSIZE, k requires 0 <= k < PGSIZE => ByteOf(p[k / 4], k % 4))
  }

  /** Words are little-endian: byte 4 * i + j of a page is bits 8 * j to 8 * j + 7 of its word i. */
  lemma ByteOrder(p: Page, i: nat)
    requires i < NPTENTRIES
    ensures Bytes(p)[4 * i] == p[i] % 0x100 && Bytes(p)[4 * i + 1] == p[i] / 0x100 % 0x100
    ensures Bytes(p)[4 * i + 2] == p[i] / 0x1_0000 % 0x100 && Bytes(p)[4 * i + 3] == p[i] / 0x100_0000
  {
    assert p[i] / 0x1_0000 == p[i] / 0x100 / 0x100 && p[i] / 0x100_0000 == p[i] / 0x100 / 0x100 / 0x100;
  }

  function PageOf(s: seq<Byte>): (p: Page)
    requires |s| == PGSIZE
  {
    seq(NPTENTRIES, i requires 0 <= i < NPTENTRIES => WordOf(s[4 * i], s[4 * i + 1], s[4 * i + 2], s[4 * i + 3]))
  }

  lemma BytesOfPage(s: seq<Byte>)
    requires |s| == PGSIZE
    ensures Bytes(PageOf(s)) == s
  {
    forall k | 0 <= k < PGSIZE ensures Bytes(PageOf(s))[k] == s[k] {
      var i := k / 4;
      ByteOfWord(s[4 * i], s[4 * i + 1], s[4 * i + 2], s[4 * i + 3]);
      hide WordOf, ByteOf;
      assert k == 4 * i || k == 4 * i + 1 || k == 4 * i + 2 || k == 4 * i + 3;
    }
  }

  /** memmove of t to offset `off`. */
  function Overwrite(s: seq<Byte>, off: nat, t: seq<Byte>): (r: seq<Byte>)
    requires off + |t| <= |s|
    ensures |r| == |s|
  {
    s[..off] + t + s[off + |t|..]
  }

  // ----- what a process sees -----

  /** The byte at address a of directory d; 0 where nothing is mapped. */
  function UserByte(m: Image, d: nat, a: nat): (b: Byte)
    requires d < |m.frames| && a < KERNBASE
  {
    var w := Entry(m.frames, d, a / PGSIZE);
    if Present(w) && Frame(w) < |m.frames| then Bytes(m.frames[Frame(w)])[a % PGSIZE] else 0
  }

  /** What uva2ka asks of a page. */
  predicate Accessible(w: Word) { Present(w) && w / PTE_U % 2 == 1 }

  /** Bytes have been written at va of directory d: d sees them there, no directory sees any other change,
      and no page but user pages of d has changed. */
  ghost predicate Written(m: Image, n: Image, d: nat, va: nat, bytes: seq<Byte>) {
    && Good(n) && n.free == m.free && n.owner == m.owner && |n.frames| == |m.frames|
    && (forall e, v :: IsDir(m, e) && 0 <= v < VPAGES ==> Entry(n.frames, e, v) == Entry(m.frames, e, v))
    && (forall e, a :: IsDir(m, e) && 0 <= a < KERNBASE ==> ByteAfter(m, n, d, va, bytes, e, a))
    && (forall f :: 0 <= f < |m.frames| && f < |m.owner| && !(m.owner[f].User? && m.owner[f].d == d) ==>
        n.frames[f] == m.frames[f])
  }

  predicate ByteAfter(m: Image, n: Image, d: nat, va: nat, bytes: seq<Byte>, e: nat, a: nat)
    requires e < |m.frames| == |n.frames| && a < KERNBASE
  {
    UserByte(n, e, a) == if e == d && va <= a < va + |bytes| then bytes[a - va] else UserByte(m, e, a)
  }

  lemma WrittenNothing(m: Image, d: nat, va: nat)
    requires Good(m)
    ensures Written(m, m, d, va, [])
  {}

  /** One memmove inside page v of d. */
  function Poke(m: Image, f: nat, off: nat, t: seq<Byte>): (n: Image)
    requires f < |m.frames| && off + |t| <= PGSIZE
  {
    Image(m.frames[f := PageOf(Overwrite(Bytes(m.frames[f]), off, t))], m.free, m.owner)
  }

  lemma PokeWrites(m: Image, d: nat, va: nat, t: seq<Byte>)
    requires Good(m) && IsDir(m, d) && va % PGSIZE + |t| <= PGSIZE && va + |t| <= KERNBASE && va < KERNBASE
    requires Present(Entry(m.frames, d, va / PGSIZE))
    ensures var f := Frame(Entry(m.frames, d, va / PGSIZE));
      f < |m.frames| && Written(m, Poke(m, f, va % PGSIZE, t), d, va, t)
  {
    var v, off := va / PGSIZE, va % PGSIZE;
    assert PteOk(m, d, v);
    var f := Frame(Entry(m.frames, d, v));
    var s := Overwrite(Bytes(m.frames[f]), off, t);
    BytesOfPage(s);
    WriteKeeps(m, f, PageOf(s));
    var n := Poke(m, f, off, t);
    forall e, a | IsDir(m, e) && 0 <= a < KERNBASE ensures ByteAfter(m, n, d, va, t, e, a) {
      PokeByte(m, n, d, va, t, f, e, a);
    }
  }

  lemma PokeByte(m: Image, n: Image, d: nat, va: nat, t: seq<Byte>, f: nat, e: nat, a: nat)
    requires Good(m) && IsDir(m, d) && va % PGSIZE + |t| <= PGSIZE && va + |t| <= KERNBASE && va < KERNBASE
    requires Present(Entry(m.frames, d, va / PGSIZE)) && f == Frame(Entry(m.frames, d, va / PGSIZE))
    requires f < |m.frames| == |n.frames|
    requires IsDir(m, e) && a < KERNBASE && Entry(n.frames, e, a / PGSIZE) == Entry(m.frames, e, a / PGSIZE)
    requires Bytes(n.frames[f]) == Overwrite(Bytes(m.frames[f]), va % PGSIZE, t)
    requires forall g :: 0 <= g < |m.frames| && g != f ==> n.frames[g] == m.frames[g]
    ensures ByteAfter(m, n, d, va, t, e, a)
  {
    InPage(va, |t|, a);
    var off, k, v, u := va % PGSIZE, a % PGSIZE, va / PGSIZE, a / PGSIZE;
    OverwriteAt(Bytes(m.frames[f]), off, t, k);
    SameFrame(m, d, v, e, u);
    hide Good, Entry, Bytes, Overwrite, Frame, Present;
    if !(e == d && u == v) { SameByte(m, n, e, a); }
  }

  lemma SameFrame(m: Image, d: nat, v: nat, e: nat, u: nat)
    requires Good(m) && IsDir(m, d) && IsDir(m, e) && v < USERPAGES && u < USERPAGES && Present(Entry(m.frames, d, v))
    ensures Present(Entry(m.frames, e, u)) && Frame(Entry(m.frames, e, u)) == Frame(Entry(m.frames, d, v)) ==>
      d == e && v == u
  {
    NamedOnce(m, d, v, e, u);
  }

  lemma SameByte(m: Image, n: Image, e: nat, a: nat)
    requires e < |m.frames| == |n.frames| && a < KERNBASE
    requires Entry(n.frames, e, a / PGSIZE) == Entry(m.frames, e, a / PGSIZE)
    requires var w := Entry(m.frames, e, a / PGSIZE); Present(w) && Frame(w) < |m.frames| ==>
      n.frames[Frame(w)] == m.frames[Frame(w)]
    ensures UserByte(n, e, a) == UserByte(m, e, a)
  {}

  lemma OverwriteAt(s: seq<Byte>, off: nat, t: seq<Byte>, k: nat)
    requires off + |t| <= |s| && k < |s|
    ensures Overwrite(s, off, t)[k] == if off <= k < off + |t| then t[k - off] else s[k]
  {}

  lemma InPage(va: nat, len: nat, a: nat)
    requires va % PGSIZE + len <= PGSIZE
    ensures va <= a < va + len <==> a / PGSIZE == va / PGSIZE && va % PGSIZE <= a % PGSIZE < va % PGSIZE + len
    ensures a / PGSIZE == va / PGSIZE ==> a - va == a % PGSIZE - va % PGSIZE
  {}

  lemma WrittenStep(l: Image, m: Image, n: Image, d: nat, va: nat, s: seq<Byte>, t: seq<Byte>)
    requires Written(l, m, d, va, s) && Written(m, n, d, va + |s|, t)
    ensures Written(l, n, d, va, s + t)
  {
    hide Good, UserByte, Entry;
    forall e, a | IsDir(l, e) && 0 <= a < KERNBASE ensures ByteAfter(l, n, d, va, s + t, e, a) {
      assert ByteAfter(l, m, d, va, s, e, a) && ByteAfter(m, n, d, va + |s|, t, e, a);
    }
  }

  /** It is what the processor finds there. */
  lemma UserByteIs(m: Image, d: nat, a: nat)
    requires Good(m) && IsDir(m, d) && a < KERNBASE
    ensures UserByte(m, d, a) ==
      match Mmu(m.frames, d, a)
      case Page(f, _, _) => if f < |m.frames| then Bytes(m.frames[f])[a % 0x1000] else 0
      case NoPage => 0
  {
    MmuIs(m, d, a);
  }

  // ----- copyout -----

  /** copyout meets a table at address a. */
  predicate TableAt(m: Image, d: nat, a: nat)
    requires IsDir(m, d)
  {
    a < UINT_LIMIT && Present(m.frames[d][a / PGSIZE / NPTENTRIES])
  }

  /** The processor lets the user in at address a. */
  predicate UserIn(m: Image, d: nat, a: Uint)
    requires IsDir(m, d)
  {
    Mmu(m.frames, d, a).Page? && Mmu(m.frames, d, a).user
  }

  /** It does, and a is no kernel address. */
  predicate AccessibleAt(m: Image, d: nat, a: nat)
    requires IsDir(m, d)
  {
    a < KERNBASE && UserIn(m, d, a)
  }

  /** The processor lets the user in nowhere in the kernel. */
  ghost predicate KernelClosed(m: Image, d: nat)
    requires IsDir(m, d)
  {
    forall a: Uint :: a >= KERNBASE ==> !UserIn(m, d, a)
  }

  /** What uva2ka tests decides it. */
  lemma UserInIs(m: Image, d: nat, a: Uint)
    requires Good(m) && IsDir(m, d)
    ensures UserIn(m, d, a) <==> Accessible(Entry(m.frames, d, a / PGSIZE))
  {
    MmuIs(m, d, a);
  }

  lemma ClosedAt(m: Image, d: nat, a: Uint)
    requires Good(m) && IsDir(m, d) && KernelClosed(m, d)
    ensures Accessible(Entry(m.frames, d, a / PGSIZE)) <==> AccessibleAt(m, d, a)
    ensures AccessibleAt(m, d, a) ==> a / PGSIZE < USERPAGES
  {
    UserInIs(m, d, a);
  }

  /** With the same entries the processor lets the user in at the same places. */
  lemma SameUserIn(m: Image, n: Image, d: nat, a: Uint)
    requires Good(m) && Good(n) && IsDir(m, d) && IsDir(n, d)
    requires Entry(n.frames, d, a / PGSIZE) == Entry(m.frames, d, a / PGSIZE)
    ensures UserIn(n, d, a) <==> UserIn(m, d, a)
  {
    UserInIs(m, d, a);
    UserInIs(n, d, a);
  }

  lemma PageAtAddress(a: Uint)
    ensures RoundDown(a) / PGSIZE == a / PGSIZE < VPAGES && a - RoundDown(a) == a % PGSIZE
    ensures a / PGSIZE < USERPAGES ==> RoundDown(a) + PGSIZE <= KERNBASE
  {}

  /** What fits the page: n = PGSIZE - (va - va0), but at most len. */
  function ChunkSize(a: Uint, len: nat): (n: nat)
    ensures n <= len
  {
    var left := PGSIZE - (a - RoundDown(a));
    if left > len then len else left
  }

  lemma ChunkSizeMeans(a: Uint, len: nat)
    requires len > 0
    ensures 0 < ChunkSize(a, len) && a % PGSIZE + ChunkSize(a, len) <= PGSIZE
    ensures ChunkSize(a, len) < len ==> RoundDown(a) + PGSIZE == a + ChunkSize(a, len)
    ensures a / PGSIZE < USERPAGES ==> a + ChunkSize(a, len) <= KERNBASE && a < KERNBASE
  {}

  /** One turn of copyout: `size` bytes are copied, or none because the user may not access the page. */
  ghost predicate ChunkCopied(m: Image, n: Image, d: nat, a: Uint, buf: seq<Byte>, size: nat)
    requires IsDir(m, d)
  {
    && size <= |buf| && (size == 0 <==> !AccessibleAt(m, d, a)) && (size == 0 ==> n == m)
    && (size > 0 ==>
          && a % PGSIZE + size <= PGSIZE && a + size <= KERNBASE && RoundDown(a) + PGSIZE < UINT_LIMIT
          && Written(m, n, d, a, buf[..size]) && (size < |buf| ==> RoundDown(a) + PGSIZE == a + size))
  }

  lemma ChunkWrites(m: Image, d: nat, a: Uint, buf: seq<Byte>)
    requires Good(m) && IsDir(m, d) && KernelClosed(m, d) && |buf| > 0
    ensures RoundDown(a) / PGSIZE == a / PGSIZE < VPAGES && a - RoundDown(a) == a % PGSIZE
    ensures !Accessible(Entry(m.frames, d, a / PGSIZE)) ==> ChunkCopied(m, m, d, a, buf, 0)
    ensures Accessible(Entry(m.frames, d, a / PGSIZE)) ==>
      var size := ChunkSize(a, |buf|); var f := Frame(Entry(m.frames, d, a / PGSIZE));
      f < |m.frames| && a % PGSIZE + size <= PGSIZE
        && ChunkCopied(m, Poke(m, f, a % PGSIZE, buf[..size]), d, a, buf, size)
  {
    PageAtAddress(a);
    ClosedAt(m, d, a);
    ChunkSizeMeans(a, |buf|);
    hide Good, Written, RoundDown, KernelClosed, ChunkSize, Poke;
    if AccessibleAt(m, d, a) { PokeWrites(m, d, a, buf[..ChunkSize(a, |buf|)]); }
  }

  lemma SamePageAccessible(m: Image, d: nat, a: nat, size: nat)
    requires Good(m) && IsDir(m, d) && AccessibleAt(m, d, a) && a % PGSIZE + size <= PGSIZE && a + size <= KERNBASE
    ensures forall b :: a <= b < a + size ==> AccessibleAt(m, d, b)
  {
    forall b | a <= b < a + size ensures AccessibleAt(m, d, b) {
      assert b / PGSIZE == a / PGSIZE;
      UserInIs(m, d, a);
      UserInIs(m, d, b);
    }
  }

  /** copyout when `done` bytes have been copied. */
  ghost predicate CopyingOut(m: Image, n: Image, d: nat, va: nat, p: seq<Byte>, done: nat) {
    && Good(m) && IsDir(m, d) && done <= |p| && Written(m, n, d, va, p[..done]) && KernelClosed(m, d)
    && (forall a :: va <= a < va + |p| && (a <= KERNBASE || a == va) ==> TableAt(m, d, a))
    && (forall a :: va <= a < va + done ==> AccessibleAt(m, d, a))
    && (done > 0 ==> va + done <= KERNBASE)
  }

  lemma CopyOutStart(m: Image, d: nat, va: nat, p: seq<Byte>)
    requires Good(m) && IsDir(m, d) && KernelClosed(m, d)
    requires forall a :: va <= a < va + |p| && (a <= KERNBASE || a == va) ==> TableAt(m, d, a)
    ensures CopyingOut(m, m, d, va, p, 0)
  {
    WrittenNothing(m, d, va);
    assert p[..0] == [];
  }

  lemma CopyOutMeans(m: Image, n: Image, d: nat, va: nat, p: seq<Byte>, done: nat)
    requires CopyingOut(m, n, d, va, p, done) && done < |p|
    ensures Good(n) && IsDir(m, d) && IsDir(n, d) && TableAt(n, d, va + done) && KernelClosed(n, d)
    ensures AccessibleAt(n, d, va + done) <==> AccessibleAt(m, d, va + done)
  {
    assert TableAt(m, d, va + done);
    forall a: Uint ensures UserIn(n, d, a) <==> UserIn(m, d, a) { SameUserIn(m, n, d, a); }
  }

  lemma CopyOutStep(m: Image, n: Image, w: Image, d: nat, va: nat, p: seq<Byte>, done: nat, a: Uint, size: nat)
    requires CopyingOut(m, n, d, va, p, done) && done < |p| && a == va + done && IsDir(n, d)
    requires ChunkCopied(n, w, d, a, p[done..], size)
    ensures size == 0 ==> w == n && IsDir(m, d) && !AccessibleAt(m, d, va + done)
    ensures size > 0 ==>
      && size <= |p| - done && CopyingOut(m, w, d, va, p, done + size) && p[done..][size..] == p[done + size..]
      && RoundDown(a) + PGSIZE < UINT_LIMIT && (done + size < |p| ==> RoundDown(a) + PGSIZE == va + done + size)
  {
    CopyOutMeans(m, n, d, va, p, done);
    if size > 0 {
      WrittenStep(m, n, w, d, va, p[..done], p[done..][..size]);
      assert p[..done] + p[done..][..size] == p[..done + size];
      SamePageAccessible(m, d, va + done, size);
    }
    hide Good, Written, TableAt, AccessibleAt, KernelClosed, RoundDown;
  }

  lemma CopyOutStops(m: Image, n: Image, d: nat, va: nat, p: seq<Byte>, done: nat)
    requires CopyingOut(m, n, d, va, p, done) && done < |p| && IsDir(m, d) && !AccessibleAt(m, d, va + done)
    ensures Written(m, n, d, va, p[..done]) && forall a :: va <= a < va + done ==> AccessibleAt(m, d, a)
    ensures exists a :: va <= a < va + |p| && !AccessibleAt(m, d, a)
  {
    assert !AccessibleAt(m, d, va + done);
  }

  lemma CopyOutDone(m: Image, n: Image, d: nat, va: nat, p: seq<Byte>)
    requires CopyingOut(m, n, d, va, p, |p|)
    ensures IsDir(m, d) && Written(m, n, d, va, p[..|p|]) && forall a :: va <= a < va + |p| ==> AccessibleAt(m, d, a)
  {}
}
