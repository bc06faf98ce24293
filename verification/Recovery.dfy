/** Crash behaviour of the redo log (log.c), as functions on disk images.

    The log region is the header block `start` followed by LOGSIZE - 1 data blocks. A commit and a
    recovery are sequences of single-block writes; a crash keeps some prefix of them. */
module Recovery {
  import opened Blocks

  const MAXOPBLOCKS: nat := 10             // param.h
  const LOGSIZE: nat := MAXOPBLOCKS * 3    // param.h; also nlog, the size of the log region
  const LOGCAP: nat := LOGSIZE - 1         // what log_write lets in: log.size - 1

  // ----- disk writes -----

  function ApplyOne(d: Disk, w: Write): (r: Disk) {
    if w.addr < |d| then d[w.addr := w.data] else d
  }

  /** The disk after a sequence of block writes. */
  function Apply(d: Disk, ws: seq<Write>): (r: Disk)
    ensures |r| == |d|
  {
    if |ws| == 0 then d else ApplyOne(Apply(d, ws[..|ws| - 1]), ws[|ws| - 1])
  }

  lemma {:induction false} ApplyConcat(d: Disk, a: seq<Write>, b: seq<Write>)
    ensures Apply(d, a + b) == Apply(Apply(d, a), b)
  {
    if |b| == 0 {
      assert a + b == a;
    } else {
      ApplyConcat(d, a, b[..|b| - 1]);
      assert (a + b)[..|a + b| - 1] == a + b[..|b| - 1];
    }
  }

  ghost predicate DistinctAddrs(ws: seq<Write>, size: nat) {
    && (forall t :: 0 <= t < |ws| ==> ws[t].addr < size)
    && (forall t, u :: 0 <= t < u < |ws| ==> ws[t].addr != ws[u].addr)
  }

  /** Writes to distinct blocks leave each of them with its new data and touch no other block. */
  lemma {:induction false} ApplyDistinct(d: Disk, ws: seq<Write>)
    requires DistinctAddrs(ws, |d|)
    ensures forall t :: 0 <= t < |ws| ==> Apply(d, ws)[ws[t].addr] == ws[t].data
    ensures forall b :: 0 <= b < |d| && (forall t :: 0 <= t < |ws| ==> ws[t].addr != b) ==> Apply(d, ws)[b] == d[b]
  {
    if |ws| > 0 { ApplyDistinct(d, ws[..|ws| - 1]); }
  }

  // ----- the header block -----

  /** struct logheader: int n at word 0. */
  function HeaderN(h: Block): int {
    if Word(h, 0) < 0x8000_0000 then Word(h, 0) else Word(h, 0) - UINT_LIMIT
  }

  /** read_head: the logged block numbers; a count that is not positive reads as an empty log. */
  function ReadHeader(h: Block): (bs: seq<Uint>)
    requires HeaderN(h) <= LOGSIZE
  {
    if HeaderN(h) <= 0 then [] else seq(HeaderN(h), i requires 0 <= i < HeaderN(h) => Word(h, i + 1))
  }

  /** write_head: the count and the first k entries of bs put over what the block held. */
  function PutEntries(h: Block, bs: seq<Uint>, k: nat): (r: Block)
    requires k <= |bs| <= LOGSIZE
  {
    if k == 0 then SetWord(h, 0, |bs|) else SetWord(PutEntries(h, bs, k - 1), k, bs[k - 1])
  }

  function PutHeader(h: Block, bs: seq<Uint>): (r: Block)
    requires |bs| <= LOGSIZE
  {
    PutEntries(h, bs, |bs|)
  }

  lemma {:induction false} PutEntriesWords(h: Block, bs: seq<Uint>, k: nat)
    requires k <= |bs| <= LOGSIZE
    ensures Word(PutEntries(h, bs, k), 0) == |bs|
    ensures forall i :: 0 <= i < k ==> Word(PutEntries(h, bs, k), i + 1) == bs[i]
  {
    if k == 0 {
      WordAfterSet(h, 0, |bs|, 0);
    } else {
      PutEntriesWords(h, bs, k - 1);
      WordAfterSet(PutEntries(h, bs, k - 1), k, bs[k - 1], 0);
      forall i | 0 <= i < k ensures Word(PutEntries(h, bs, k), i + 1) == bs[i] {
        WordAfterSet(PutEntries(h, bs, k - 1), k, bs[k - 1], i + 1);
      }
    }
  }

  /** What write_head writes, read_head reads back, whatever the block held before. */
  lemma HeaderRoundTrip(h: Block, bs: seq<Uint>)
    requires |bs| <= LOGSIZE
    ensures HeaderN(PutHeader(h, bs)) == |bs| && ReadHeader(PutHeader(h, bs)) == bs
  {
    PutEntriesWords(h, bs, |bs|);
  }

  /** Clearing a header twice is clearing it once. */
  lemma ClearTwice(h: Block)
    ensures PutHeader(PutHeader(h, []), []) == PutHeader(h, [])
  {
    assert PutHeader(h, []) == SetWord(h, 0, 0);
  }

  // ----- well-formed images -----

  predicate InLog(start: nat, b: nat) {
    start <= b < start + LOGSIZE
  }

  /** Block numbers that a transaction may carry: distinct home blocks outside the log, that fit. */
  ghost predicate Homes(start: nat, size: nat, bs: seq<Uint>) {
    && |bs| <= LOGCAP
    && (forall t :: 0 <= t < |bs| ==> bs[t] < size && !InLog(start, bs[t]))
    && (forall t, u :: 0 <= t < u < |bs| ==> bs[t] != bs[u])
  }

  ghost predicate LogImage(d: Disk, start: nat) {
    && start + LOGSIZE <= |d|
    && HeaderN(d[start]) <= LOGCAP
    && Homes(start, |d|, ReadHeader(d[start]))
  }

  /** The two images agree on every block outside the log. */
  ghost predicate SameHome(d: Disk, e: Disk, start: nat) {
    |d| == |e| && forall b :: 0 <= b < |d| && !InLog(start, b) ==> d[b] == e[b]
  }

  // ----- write sequences -----

  /** Block bs[t] gets vals[t], in order. */
  function Installs(bs: seq<nat>, vals: seq<Block>): (ws: seq<Write>)
    requires |bs| == |vals|
  {
    seq(|bs|, t requires 0 <= t < |bs| => Write(bs[t], vals[t]))
  }

  /** The first j of these writes, to distinct blocks: those blocks get their values, all others stay. */
  lemma InstallPrefix(d: Disk, bs: seq<nat>, vals: seq<Block>, j: nat)
    requires |bs| == |vals| && j <= |bs|
    requires forall t :: 0 <= t < |bs| ==> bs[t] < |d|
    requires forall t, u :: 0 <= t < u < |bs| ==> bs[t] != bs[u]
    ensures var e := Apply(d, Installs(bs, vals)[..j]);
      && (forall t :: 0 <= t < j ==> e[bs[t]] == vals[t])
      && (forall t :: j <= t < |bs| ==> e[bs[t]] == d[bs[t]])
      && (forall b :: 0 <= b < |d| && b !in bs ==> e[b] == d[b])
  {
    var ws := Installs(bs, vals)[..j];
    assert forall t :: 0 <= t < j ==> ws[t] == Write(bs[t], vals[t]);
    ApplyDistinct(d, ws);
    forall t | 0 <= t < j ensures Apply(d, ws)[bs[t]] == vals[t] { assert ws[t].addr == bs[t]; }
  }

  /** The data blocks of the log. */
  function LogData(d: Disk, start: nat, n: nat): (vals: seq<Block>)
    requires start + n < |d|
  {
    d[start + 1..start + 1 + n]
  }

  /** The numbers of the log's first n data blocks. */
  function LogSlots(start: nat, n: nat): (bs: seq<nat>) {
    seq(n, t requires 0 <= t < n => start + 1 + t)
  }

  /** The contents of the given blocks. */
  function Pick(view: Disk, bs: seq<Uint>): (vals: seq<Block>)
    requires forall t :: 0 <= t < |bs| ==> bs[t] < |view|
  {
    seq(|bs|, t requires 0 <= t < |bs| => view[bs[t]])
  }

  /** commit of a nonempty transaction: write_log, write_head, install_trans, write_head. */
  function CommitWrites(start: nat, bs: seq<Uint>, view: Disk): (ws: seq<Write>)
    requires start < |view| && |bs| <= LOGSIZE
    requires forall t :: 0 <= t < |bs| ==> bs[t] < |view|
  {
    Installs(LogSlots(start, |bs|), Pick(view, bs))
    + [Write(start, PutHeader(view[start], bs))]
    + Installs(bs, Pick(view, bs))
    + [Write(start, PutHeader(PutHeader(view[start], bs), []))]
  }

  /** recover_from_log: install what the header names, then clear the header. */
  function RecoverWrites(d: Disk, start: nat): (ws: seq<Write>)
    requires start + LOGSIZE <= |d| && HeaderN(d[start]) <= LOGCAP
  {
    var bs := ReadHeader(d[start]);
    Installs(bs, LogData(d, start, |bs|)) + [Write(start, PutHeader(d[start], []))]
  }

  function Recover(d: Disk, start: nat): (r: Disk)
    requires start + LOGSIZE <= |d| && HeaderN(d[start]) <= LOGCAP
  {
    Apply(d, RecoverWrites(d, start))
  }

  /** The first k writes of a recovery, all of them installs. */
  lemma RecoverPrefix(d: Disk, start: nat, k: nat)
    requires LogImage(d, start) && k <= |ReadHeader(d[start])|
    ensures var bs := ReadHeader(d[start]);
      var e := Apply(d, RecoverWrites(d, start)[..k]);
      && (forall t :: 0 <= t < k ==> e[bs[t]] == d[start + 1 + t])
      && (forall b :: 0 <= b < |d| && b !in bs ==> e[b] == d[b])
  {
    var bs := ReadHeader(d[start]);
    InstallPrefix(d, bs, LogData(d, start, |bs|), k);
    assert RecoverWrites(d, start)[..k] == Installs(bs, LogData(d, start, |bs|))[..k];
  }

  /** What a complete recovery does: the home blocks named by the header get the logged contents,
      the header is cleared and nothing else changes. */
  lemma RecoverEffect(d: Disk, start: nat)
    requires LogImage(d, start)
    ensures var bs := ReadHeader(d[start]);
      && (forall t :: 0 <= t < |bs| ==> Recover(d, start)[bs[t]] == d[start + 1 + t])
      && (forall b :: 0 <= b < |d| && b != start && b !in bs ==> Recover(d, start)[b] == d[b])
      && Recover(d, start)[start] == PutHeader(d[start], [])
      && HeaderN(Recover(d, start)[start]) == 0
  {
    var bs := ReadHeader(d[start]);
    var ws := RecoverWrites(d, start);
    RecoverPrefix(d, start, |bs|);
    assert ws[..|ws| - 1] == ws[..|bs|];
    assert ws[|ws| - 1] == Write(start, PutHeader(d[start], []));
    HeaderRoundTrip(d[start], []);
  }

  /** Two images whose logs are the same and whose other blocks differ only where the log overwrites
      them recover to the same image. */
  lemma SameRecovery(d: Disk, e: Disk, start: nat)
    requires LogImage(d, start) && |e| == |d|
    requires forall b :: 0 <= b < |d| && b !in ReadHeader(d[start]) ==> e[b] == d[b]
    ensures LogImage(e, start) && Recover(e, start) == Recover(d, start)
  {
    assert e[start] == d[start];
    RecoverEffect(d, start);
    RecoverEffect(e, start);
    SameInstall(d, e, Recover(d, start), Recover(e, start), start, ReadHeader(d[start]));
  }

  lemma SameInstall(d: Disk, e: Disk, x: Disk, y: Disk, start: nat, bs: seq<Uint>)
    requires |d| == |e| == |x| == |y| && start + LOGSIZE <= |d| && Homes(start, |d|, bs)
    requires forall b :: 0 <= b < |d| && b !in bs ==> e[b] == d[b]
    requires forall t :: 0 <= t < |bs| ==> x[bs[t]] == d[start + 1 + t]
    requires forall t :: 0 <= t < |bs| ==> y[bs[t]] == e[start + 1 + t]
    requires forall b :: 0 <= b < |d| && b != start && b !in bs ==> x[b] == d[b]
    requires forall b :: 0 <= b < |d| && b != start && b !in bs ==> y[b] == e[b]
    requires x[start] == y[start]
    ensures x == y
  {
    assert forall b :: b in bs ==> !InLog(start, b);
    forall t | 0 <= t < |bs| ensures x[bs[t]] == y[bs[t]] { assert e[start + 1 + t] == d[start + 1 + t]; }
    forall b | 0 <= b < |d| ensures x[b] == y[b] {
      if t :| 0 <= t < |bs| && bs[t] == b { assert x[bs[t]] == y[bs[t]]; }
    }
  }

  /** A recovery that crashes after k writes and is then run to the end does what an uninterrupted
      recovery does. */
  lemma CrashThenRecover(d: Disk, start: nat, k: nat)
    requires LogImage(d, start) && k <= |RecoverWrites(d, start)|
    ensures var e := Apply(d, RecoverWrites(d, start)[..k]);
      LogImage(e, start) && Recover(e, start) == Recover(d, start)
  {
    var ws := RecoverWrites(d, start);
    if k <= |ReadHeader(d[start])| {
      RecoverPrefix(d, start, k);
      SameRecovery(d, Apply(d, ws[..k]), start);
    } else {
      assert ws[..k] == ws;
      RecoverTwice(d, start);
    }
  }

  lemma RecoverTwice(d: Disk, start: nat)
    requires LogImage(d, start)
    ensures LogImage(Recover(d, start), start)
    ensures Recover(Recover(d, start), start) == Recover(d, start)
  {
    var e := Recover(d, start);
    RecoverEffect(d, start);
    assert ReadHeader(e[start]) == [];
    RecoverEffect(e, start);
    ClearTwice(d[start]);
    forall b | 0 <= b < |d| ensures Recover(e, start)[b] == e[b] {}
  }

  /** The disk after recoveries that crashed after ks[0], ks[1], ... writes. */
  function AfterCrashes(d: Disk, start: nat, ks: seq<nat>): (e: Disk)
    requires start + LOGSIZE <= |d|
    ensures |e| == |d|
    decreases |ks|
  {
    if |ks| == 0 || HeaderN(d[start]) > LOGCAP then d
    else
      var ws := RecoverWrites(d, start);
      AfterCrashes(Apply(d, if ks[0] <= |ws| then ws[..ks[0]] else ws), start, ks[1..])
  }

  /** However many recoveries crash, and wherever, the next one that completes gives the disk that
      one undisturbed recovery gives. */
  lemma {:induction false} RecoverAfterCrashes(d: Disk, start: nat, ks: seq<nat>)
    requires LogImage(d, start)
    ensures var e := AfterCrashes(d, start, ks);
      LogImage(e, start) && Recover(e, start) == Recover(d, start)
    decreases |ks|
  {
    if |ks| > 0 {
      var ws := RecoverWrites(d, start);
      var k := if ks[0] <= |ws| then ks[0] else |ws|;
      assert ws[..|ws|] == ws;
      CrashThenRecover(d, start, k);
      RecoverAfterCrashes(Apply(d, ws[..k]), start, ks[1..]);
    }
  }

  // ----- crash atomicity of commit -----

  /** What must hold when commit starts: the on-disk log is empty, and the visible contents differ
      from the disk in logged blocks only. */
  ghost predicate ReadyToCommit(d: Disk, start: nat, bs: seq<Uint>, view: Disk) {
    && |view| == |d| && start + LOGSIZE <= |d|
    && HeaderN(d[start]) == 0
    && Homes(start, |d|, bs)
    && forall b :: 0 <= b < |d| && b !in bs ==> view[b] == d[b]
  }

  /** The image after the first k writes of a commit. */
  function CommitCrash(d: Disk, start: nat, bs: seq<Uint>, view: Disk, k: nat): (r: Disk)
    requires start < |view| && |bs| <= LOGSIZE
    requires forall t :: 0 <= t < |bs| ==> bs[t] < |view|
    requires k <= |CommitWrites(start, bs, view)|
  {
    Apply(d, CommitWrites(start, bs, view)[..k])
  }

  lemma BeforeHeader(d: Disk, start: nat, bs: seq<Uint>, view: Disk, k: nat)
    requires ReadyToCommit(d, start, bs, view) && k <= |bs|
    ensures var e := CommitCrash(d, start, bs, view, k);
      && SameHome(e, d, start) && e[start] == d[start]
      && forall t :: 0 <= t < k ==> e[start + 1 + t] == view[bs[t]]
  {
    var slots := LogSlots(start, |bs|);
    InstallPrefix(d, slots, Pick(view, bs), k);
    assert CommitWrites(start, bs, view)[..k] == Installs(slots, Pick(view, bs))[..k];
    hide Apply, Installs, CommitWrites, PutHeader;
    forall t | 0 <= t < k ensures CommitCrash(d, start, bs, view, k)[start + 1 + t] == view[bs[t]] {
      assert slots[t] == start + 1 + t;
    }
  }

  /** After the header write: the log names the transaction and holds its blocks, and j home blocks
      have been installed. */
  lemma AfterHeader(d: Disk, start: nat, bs: seq<Uint>, view: Disk, j: nat)
    requires ReadyToCommit(d, start, bs, view) && j <= |bs|
    ensures var e := CommitCrash(d, start, bs, view, |bs| + 1 + j);
      && e[start] == PutHeader(view[start], bs)
      && (forall t :: 0 <= t < |bs| ==> e[start + 1 + t] == view[bs[t]])
      && (forall b :: 0 <= b < |d| && !InLog(start, b) && b !in bs ==> e[b] == d[b])
      && (forall t :: 0 <= t < j ==> e[bs[t]] == view[bs[t]])
  {
    var n := |bs|;
    var header := [Write(start, PutHeader(view[start], bs))];
    var homes := Installs(bs, Pick(view, bs))[..j];
    BeforeHeader(d, start, bs, view, n);
    var e0 := CommitCrash(d, start, bs, view, n);
    var e1 := e0[start := PutHeader(view[start], bs)];
    CommitParts(start, bs, view, j);
    ApplyConcat(d, CommitWrites(start, bs, view)[..n] + header, homes);
    ApplyConcat(d, CommitWrites(start, bs, view)[..n], header);
    assert header[..0] == [] && Apply(e0, header) == e1;
    InstallPrefix(e1, bs, Pick(view, bs), j);
  }

  lemma CommitParts(start: nat, bs: seq<Uint>, view: Disk, j: nat)
    requires start < |view| && j <= |bs| <= LOGSIZE
    requires forall t :: 0 <= t < |bs| ==> bs[t] < |view|
    ensures var ws := CommitWrites(start, bs, view);
      && |ws| == 2 * |bs| + 2
      && ws[..|bs| + 1 + j] == ws[..|bs|] + [Write(start, PutHeader(view[start], bs))]
          + Installs(bs, Pick(view, bs))[..j]
      && ws[2 * |bs| + 1] == Write(start, PutHeader(PutHeader(view[start], bs), []))
  {}

  /** CRASH ATOMICITY. A commit that crashes after any number k of its block writes, followed by any
      number of recoveries that may each crash as well, followed by a recovery that completes, leaves
      an empty log and, outside the log, either the disk as it was before the commit or the disk with
      all of the transaction's blocks, and it is the new one exactly when the header write was among
      the k. Blocks outside the log and the transaction are never changed. */
  lemma CrashAtomicity(d: Disk, start: nat, bs: seq<Uint>, view: Disk, k: nat, ks: seq<nat>)
    requires ReadyToCommit(d, start, bs, view) && k <= |CommitWrites(start, bs, view)|
    ensures var e := AfterCrashes(CommitCrash(d, start, bs, view, k), start, ks);
      && LogImage(e, start)
      && HeaderN(Recover(e, start)[start]) == 0
      && SameHome(Recover(e, start), if k <= |bs| then d else view, start)
  {
    OneCrash(d, start, bs, view, k);
    RecoverAfterCrashes(CommitCrash(d, start, bs, view, k), start, ks);
  }

  lemma OneCrash(d: Disk, start: nat, bs: seq<Uint>, view: Disk, k: nat)
    requires ReadyToCommit(d, start, bs, view) && k <= |CommitWrites(start, bs, view)|
    ensures var e := CommitCrash(d, start, bs, view, k);
      && LogImage(e, start)
      && HeaderN(Recover(e, start)[start]) == 0
      && SameHome(Recover(e, start), if k <= |bs| then d else view, start)
  {
    CommitParts(start, bs, view, 0);
    if k <= |bs| {
      CrashBeforeHeader(d, start, bs, view, k);
    } else if k <= 2 * |bs| + 1 {
      CrashAfterHeader(d, start, bs, view, k - |bs| - 1);
    } else {
      CommitComplete(d, start, bs, view);
    }
  }

  lemma CrashBeforeHeader(d: Disk, start: nat, bs: seq<Uint>, view: Disk, k: nat)
    requires ReadyToCommit(d, start, bs, view) && k <= |bs|
    ensures var e := CommitCrash(d, start, bs, view, k);
      LogImage(e, start) && HeaderN(Recover(e, start)[start]) == 0 && SameHome(Recover(e, start), d, start)
  {
    BeforeHeader(d, start, bs, view, k);
    RecoverEffect(CommitCrash(d, start, bs, view, k), start);
  }

  lemma CrashAfterHeader(d: Disk, start: nat, bs: seq<Uint>, view: Disk, j: nat)
    requires ReadyToCommit(d, start, bs, view) && j <= |bs|
    ensures var e := CommitCrash(d, start, bs, view, |bs| + 1 + j);
      LogImage(e, start) && HeaderN(Recover(e, start)[start]) == 0 && SameHome(Recover(e, start), view, start)
  {
    var e := CommitCrash(d, start, bs, view, |bs| + 1 + j);
    HeaderRoundTrip(view[start], bs);
    AfterHeader(d, start, bs, view, j);
    RecoverEffect(e, start);
    forall b | 0 <= b < |d| && !InLog(start, b) ensures Recover(e, start)[b] == view[b] {
      if t :| 0 <= t < |bs| && bs[t] == b { assert b in bs; }
    }
  }

  /** A commit that runs to its end has installed everything and emptied the log by itself. */
  lemma CommitComplete(d: Disk, start: nat, bs: seq<Uint>, view: Disk)
    requires ReadyToCommit(d, start, bs, view)
    ensures var e := CommitCrash(d, start, bs, view, 2 * |bs| + 2);
      && HeaderN(e[start]) == 0 && SameHome(e, view, start)
      && LogImage(e, start) && HeaderN(Recover(e, start)[start]) == 0 && SameHome(Recover(e, start), view, start)
  {
    var n := |bs|;
    var ws := CommitWrites(start, bs, view);
    var e := CommitCrash(d, start, bs, view, 2 * n + 2);
    HeaderRoundTrip(PutHeader(view[start], bs), []);
    AfterHeader(d, start, bs, view, n);
    assert ws[..2 * n + 2][..2 * n + 1] == ws[..2 * n + 1];
    CommitParts(start, bs, view, n);
    forall b | 0 <= b < |d| && !InLog(start, b) ensures e[b] == view[b] {
      if t :| 0 <= t < n && bs[t] == b { assert b in bs; }
    }
    RecoverEffect(e, start);
  }
}
