/** Group commit (log.c: begin_op, log_write, end_op): which interleavings of file system operations
    can happen, and what they can put into one commit.

    Each spinlock-protected section of log.c is one step. `budget` bounds how many distinct blocks
    one operation logs. */
module GroupCommit {
  import opened Recovery

  // ----- the steps on struct log -----

  datatype LogState = LogState(outstanding: nat, committing: bool, lh: seq<nat>)

  datatype Outcome = Done(state: LogState) | Sleep | Panic

  /** One turn of the loop in begin_op. */
  function BeginOp(s: LogState): (r: Outcome) {
    if s.committing then Sleep
    else if |s.lh| + (s.outstanding + 1) * MAXOPBLOCKS > LOGSIZE then Sleep
    else Done(s.(outstanding := s.outstanding + 1))
  }

  /** log_write on block b: refused when the log is full, absorbed when b is logged already. */
  function LogWrite(s: LogState, b: nat): (r: Outcome) {
    if |s.lh| >= LOGSIZE || |s.lh| >= LOGSIZE - 1 then Panic
    else if s.outstanding < 1 then Panic
    else if b in s.lh then Done(s)
    else Done(s.(lh := s.lh + [b]))
  }

  /** end_op up to the decision to commit: the last operation out starts the commit. */
  function EndOp(s: LogState): (r: Outcome)
    requires s.outstanding >= 1
  {
    if s.committing then Panic
    else Done(LogState(s.outstanding - 1, s.outstanding == 1, s.lh))
  }

  /** The end of end_op after commit() has returned. */
  function CommitDone(s: LogState): (r: LogState) {
    s.(committing := false, lh := [])
  }

  // ----- the system: processes around the log -----

  /** Where a process is: not in an operation, asleep in begin_op, or inside an operation that has
      logged the given blocks. */
  datatype Proc = Outside | Waiting | Inside(blocks: set<nat>)

  /** `finished` collects the blocks logged by operations that ended since the last commit. */
  datatype Sys = Sys(log: LogState, procs: seq<Proc>, finished: set<nat>, panicked: bool)

  datatype Event = Begin(p: nat) | Log(p: nat, b: nat) | End(p: nat) | Commit

  function Init(n: nat): Sys {
    Sys(LogState(0, false, []), seq(n, _ => Outside), {}, false)
  }

  predicate Enabled(s: Sys, e: Event, budget: nat) {
    && !s.panicked
    && match e
       case Begin(p) => p < |s.procs| && !s.procs[p].Inside?
       case Log(p, b) => p < |s.procs| && s.procs[p].Inside? && |s.procs[p].blocks + {b}| <= budget
       case End(p) => p < |s.procs| && s.procs[p].Inside? && s.log.outstanding >= 1
       case Commit => s.log.committing
  }

  /** wakeup(&log). */
  function Wake(procs: seq<Proc>): (r: seq<Proc>) {
    seq(|procs|, i requires 0 <= i < |procs| => if procs[i].Waiting? then Outside else procs[i])
  }

  function Step(s: Sys, e: Event, budget: nat): (r: Sys)
    requires Enabled(s, e, budget)
  {
    match e
    case Begin(p) => (
      match BeginOp(s.log)
      case Done(l) => s.(log := l, procs := s.procs[p := Inside({})])
      case Sleep => s.(procs := s.procs[p := Waiting])
      case Panic => s.(panicked := true))
    case Log(p, b) => (
      match LogWrite(s.log, b)
      case Done(l) => s.(log := l, procs := s.procs[p := Inside(s.procs[p].blocks + {b})])
      case Sleep => s
      case Panic => s.(panicked := true))
    case End(p) => (
      match EndOp(s.log)
      case Done(l) =>
        Sys(l, if l.committing then s.procs[p := Outside] else Wake(s.procs[p := Outside]),
            s.finished + s.procs[p].blocks, false)
      case Sleep => s
      case Panic => s.(panicked := true))
    case Commit => Sys(CommitDone(s.log), Wake(s.procs), {}, false)
  }

  /** A run: events that are not possible at their turn are skipped. */
  function Run(s: Sys, es: seq<Event>, budget: nat): (r: Sys) {
    if |es| == 0 then s
    else
      var t := Run(s, es[..|es| - 1], budget);
      if Enabled(t, es[|es| - 1], budget) then Step(t, es[|es| - 1], budget) else t
  }

  // ----- counting -----

  function CountInside(procs: seq<Proc>): nat {
    if |procs| == 0 then 0
    else CountInside(procs[..|procs| - 1]) + if procs[|procs| - 1].Inside? then 1 else 0
  }

  /** What the operations inside may still log if each may log `budget` blocks. */
  function Unspent(procs: seq<Proc>, budget: nat): int {
    if |procs| == 0 then 0
    else Unspent(procs[..|procs| - 1], budget) + Left(procs[|procs| - 1], budget)
  }

  function Left(p: Proc, budget: nat): int {
    if p.Inside? then budget - |p.blocks| else 0
  }

  lemma {:induction false} CountUpdate(procs: seq<Proc>, p: nat, x: Proc, budget: nat)
    requires p < |procs|
    ensures CountInside(procs[p := x]) == CountInside(procs)
      + (if x.Inside? then 1 else 0) - (if procs[p].Inside? then 1 else 0)
    ensures Unspent(procs[p := x], budget) == Unspent(procs, budget) + Left(x, budget) - Left(procs[p], budget)
  {
    var n := |procs| - 1;
    if p < n {
      CountUpdate(procs[..n], p, x, budget);
      assert procs[p := x][..n] == procs[..n][p := x];
    } else {
      assert procs[p := x][..n] == procs[..n];
    }
  }

  lemma {:induction false} CountWake(procs: seq<Proc>, budget: nat)
    ensures CountInside(Wake(procs)) == CountInside(procs)
    ensures Unspent(Wake(procs), budget) == Unspent(procs, budget)
  {
    var n := |procs|;
    if n > 0 {
      CountWake(procs[..n - 1], budget);
      assert Wake(procs)[..n - 1] == Wake(procs[..n - 1]);
    }
  }

  lemma {:induction false} CountNone(procs: seq<Proc>, budget: nat)
    ensures CountInside(procs) == 0 <==> forall i :: 0 <= i < |procs| ==> !procs[i].Inside?
    ensures CountInside(procs) == 0 ==> Unspent(procs, budget) == 0
  {
    if |procs| > 0 { CountNone(procs[..|procs| - 1], budget); }
  }

  lemma {:induction false} UnspentBound(procs: seq<Proc>, budget: nat)
    requires forall i :: 0 <= i < |procs| && procs[i].Inside? ==> |procs[i].blocks| <= budget
    ensures 0 <= Unspent(procs, budget) <= budget * CountInside(procs)
  {
    if |procs| > 0 { UnspentBound(procs[..|procs| - 1], budget); }
  }

  // ----- the invariant -----

  ghost predicate Distinct(s: seq<nat>) {
    forall i, j :: 0 <= i < j < |s| ==> s[i] != s[j]
  }

  /** Everything in the log was logged by an operation that is still inside or has finished. */
  ghost predicate Accounted(s: Sys) {
    && (forall b :: b in s.finished ==> b in s.log.lh)
    && (forall i, b :: 0 <= i < |s.procs| && s.procs[i].Inside? && b in s.procs[i].blocks ==> b in s.log.lh)
    && (forall b :: b in s.log.lh ==>
        b in s.finished || exists i :: 0 <= i < |s.procs| && s.procs[i].Inside? && b in s.procs[i].blocks)
  }

  /** What holds in every reachable state. `room` is what log blocks plus unspent reservations of
      `budget` blocks per operation stay within. */
  ghost predicate Inv(s: Sys, budget: nat, room: nat) {
    && s.log.outstanding == CountInside(s.procs)
    && (s.log.committing ==> s.log.outstanding == 0)
    && (!s.log.committing && s.log.outstanding == 0 ==> s.log.lh == [])
    && Distinct(s.log.lh)
    && |s.log.lh| <= LOGCAP
    && (forall i :: 0 <= i < |s.procs| && s.procs[i].Inside? ==> |s.procs[i].blocks| <= budget)
    && |s.log.lh| + Unspent(s.procs, budget) <= room
    && Accounted(s)
    && (forall i :: 0 <= i < |s.procs| && s.procs[i].Waiting? ==> MustWait(s.log))
  }

  /** A commit is going on, or thirty blocks do not hold the log and one reservation of ten more. */
  predicate MustWait(l: LogState) {
    l.committing || |l.lh| + 10 * l.outstanding + 10 > 30
  }

  /** Within the reservation that begin_op makes: with ten blocks per operation the log and all
      reservations fit LOGSIZE blocks, with nine they fit one less than the log can take. */
  predicate Budgeted(budget: nat, room: nat) {
    || (budget <= MAXOPBLOCKS && room == LOGSIZE)
    || (budget <= MAXOPBLOCKS - 1 && room == LOGCAP - 1)
  }

  lemma InitInv(n: nat, budget: nat, room: nat)
    requires Budgeted(budget, room)
    ensures Inv(Init(n), budget, room)
  {
    CountNone(Init(n).procs, budget);
  }

  lemma BeginKeeps(s: Sys, p: nat, budget: nat, room: nat)
    requires Budgeted(budget, room) && Inv(s, budget, room) && Enabled(s, Begin(p), budget)
    ensures Inv(Step(s, Begin(p), budget), budget, room)
  {
    hide Accounted;
    var x := if BeginOp(s.log).Done? then Inside({}) else Waiting;
    CountUpdate(s.procs, p, x, budget);
    if BeginOp(s.log).Done? { BeginRoom(s, budget, room); }
    BeginAccounts(s, p, budget);
  }

  /** The guard of begin_op leaves room for one more reservation. */
  lemma BeginRoom(s: Sys, budget: nat, room: nat)
    requires Budgeted(budget, room) && s.log.outstanding == CountInside(s.procs) && BeginOp(s.log).Done?
    requires s.log.outstanding == 0 ==> s.log.lh == []
    requires forall i :: 0 <= i < |s.procs| && s.procs[i].Inside? ==> |s.procs[i].blocks| <= budget
    ensures |s.log.lh| + Unspent(s.procs, budget) + budget <= room
  {
    UnspentBound(s.procs, budget);
    var c := CountInside(s.procs);
    if budget <= MAXOPBLOCKS - 1 && room == LOGCAP - 1 {
      assert budget * c <= (MAXOPBLOCKS - 1) * c;
    } else {
      assert budget * c <= MAXOPBLOCKS * c;
    }
  }

  lemma BeginAccounts(s: Sys, p: nat, budget: nat)
    requires Accounted(s) && Enabled(s, Begin(p), budget)
    ensures Accounted(Step(s, Begin(p), budget))
  {
    var t := Step(s, Begin(p), budget);
    forall b | b in t.log.lh
      ensures b in t.finished || exists i :: 0 <= i < |t.procs| && t.procs[i].Inside? && b in t.procs[i].blocks
    {
      if b !in s.finished {
        var i :| 0 <= i < |s.procs| && s.procs[i].Inside? && b in s.procs[i].blocks;
        assert t.procs[i] == s.procs[i];
      }
    }
  }

  lemma LogKeeps(s: Sys, p: nat, b: nat, budget: nat, room: nat)
    requires Budgeted(budget, room) && Inv(s, budget, room) && Enabled(s, Log(p, b), budget)
    ensures Inv(Step(s, Log(p, b), budget), budget, room)
    ensures Step(s, Log(p, b), budget).panicked <==> |s.log.lh| >= LOGCAP
  {
    hide Accounted;
    var x := Inside(s.procs[p].blocks + {b});
    CountUpdate(s.procs, p, x, budget);
    CountNone(s.procs, budget);
    LogAccounts(s, p, b, budget);
  }

  lemma LogAccounts(s: Sys, p: nat, b: nat, budget: nat)
    requires Accounted(s) && Enabled(s, Log(p, b), budget)
    ensures Accounted(Step(s, Log(p, b), budget))
    ensures b in s.procs[p].blocks ==> b in s.log.lh
    ensures |s.procs[p].blocks + {b}| == |s.procs[p].blocks| + if b in s.procs[p].blocks then 0 else 1
  {
    var x := Inside(s.procs[p].blocks + {b});
    assert b in s.procs[p].blocks ==> x.blocks == s.procs[p].blocks;
    var t := Step(s, Log(p, b), budget);
    forall c | c in t.log.lh
      ensures c in t.finished || exists i :: 0 <= i < |t.procs| && t.procs[i].Inside? && c in t.procs[i].blocks
    {
      if c in s.log.lh && c !in s.finished {
        var i :| 0 <= i < |s.procs| && s.procs[i].Inside? && c in s.procs[i].blocks;
        assert i != p ==> t.procs[i] == s.procs[i];
        assert i == p ==> t.procs[i] == s.procs[i] || t.procs[i] == x;
        assert t.procs[i].Inside? && c in t.procs[i].blocks;
      } else if c !in s.finished {
        assert c == b && t.procs[p] == x;
      }
    }
  }

  lemma EndKeeps(s: Sys, p: nat, budget: nat, room: nat)
    requires Budgeted(budget, room) && Inv(s, budget, room) && Enabled(s, End(p), budget)
    ensures Inv(Step(s, End(p), budget), budget, room)
    ensures !Step(s, End(p), budget).panicked
  {
    var procs := s.procs[p := Outside];
    CountUpdate(s.procs, p, Outside, budget);
    CountWake(procs, budget);
    CountNone(procs, budget);
    EndAccounts(s, p, budget);
  }

  lemma EndAccounts(s: Sys, p: nat, budget: nat)
    requires Accounted(s) && Enabled(s, End(p), budget) && !s.log.committing
    ensures Accounted(Step(s, End(p), budget))
  {
    var t := Step(s, End(p), budget);
    forall i | 0 <= i < |s.procs| && i != p && s.procs[i].Inside? ensures t.procs[i] == s.procs[i] {}
    forall c | c in t.log.lh
      ensures c in t.finished || exists i :: 0 <= i < |t.procs| && t.procs[i].Inside? && c in t.procs[i].blocks
    {
      if c !in t.finished {
        var i :| 0 <= i < |s.procs| && s.procs[i].Inside? && c in s.procs[i].blocks;
        assert t.procs[i] == s.procs[i];
      }
    }
  }

  lemma CommitKeeps(s: Sys, budget: nat, room: nat)
    requires Budgeted(budget, room) && Inv(s, budget, room) && Enabled(s, Commit, budget)
    ensures Inv(Step(s, Commit, budget), budget, room)
  {
    CountNone(s.procs, budget);
    CountWake(s.procs, budget);
  }

  lemma {:induction false} RunInv(n: nat, es: seq<Event>, budget: nat, room: nat)
    requires Budgeted(budget, room)
    ensures Inv(Run(Init(n), es, budget), budget, room)
  {
    if |es| == 0 {
      InitInv(n, budget, room);
    } else {
      var e := es[|es| - 1];
      RunInv(n, es[..|es| - 1], budget, room);
      var t := Run(Init(n), es[..|es| - 1], budget);
      if Enabled(t, e, budget) {
        match e
        case Begin(p) => BeginKeeps(t, p, budget, room);
        case Log(p, b) => LogKeeps(t, p, b, budget, room);
        case End(p) => EndKeeps(t, p, budget, room);
        case Commit => CommitKeeps(t, budget, room);
      }
    }
  }

  // ----- what follows for every run -----

  /** ISOLATION. In every interleaving of operations that log at most MAXOPBLOCKS blocks each: a
      commit runs only with no operation inside, and the log then holds exactly the blocks of the
      operations that finished since the last commit, each of them once. */
  lemma CommitHoldsFinishedOnly(n: nat, es: seq<Event>)
    ensures var s := Run(Init(n), es, MAXOPBLOCKS);
      s.log.committing ==>
        && s.log.outstanding == 0
        && (forall i :: 0 <= i < n && i < |s.procs| ==> !s.procs[i].Inside?)
        && (forall b :: b in s.log.lh <==> b in s.finished)
        && Distinct(s.log.lh)
  {
    RunInv(n, es, MAXOPBLOCKS, LOGSIZE);
    CountNone(Run(Init(n), es, MAXOPBLOCKS).procs, MAXOPBLOCKS);
  }

  /** RESERVATION. The log region is never overrun, and logged blocks plus everything the running
      operations have reserved and not yet used never exceed LOGSIZE. */
  lemma ReservationHolds(n: nat, es: seq<Event>)
    ensures var s := Run(Init(n), es, MAXOPBLOCKS);
      && |s.log.lh| <= LOGCAP
      && |s.log.lh| + Unspent(s.procs, MAXOPBLOCKS) <= LOGSIZE
      && s.log.outstanding == CountInside(s.procs)
  {
    RunInv(n, es, MAXOPBLOCKS, LOGSIZE);
  }

  /** NO LOST WAKEUP. A process asleep in begin_op always has somebody who will wake it: an
      operation that has yet to end, or the commit in progress. */
  lemma SleepersWillWake(n: nat, es: seq<Event>, i: nat)
    ensures var s := Run(Init(n), es, MAXOPBLOCKS);
      i < |s.procs| && s.procs[i].Waiting? ==> s.log.committing || exists j :: 0 <= j < |s.procs| && s.procs[j].Inside?
  {
    RunInv(n, es, MAXOPBLOCKS, LOGSIZE);
    CountNone(Run(Init(n), es, MAXOPBLOCKS).procs, MAXOPBLOCKS);
  }

  /** NOBODY SLEEPS IN VAIN. Whoever is asleep in begin_op would go to sleep again if it looked now. */
  lemma SleepersMustWait(n: nat, es: seq<Event>, i: nat)
    ensures var s := Run(Init(n), es, MAXOPBLOCKS);
      i < |s.procs| && s.procs[i].Waiting? ==> s.log.committing || |s.log.lh| + 10 * (s.log.outstanding + 1) > 30
  {
    RunInv(n, es, MAXOPBLOCKS, LOGSIZE);
  }

  /** No run of operations that stay within the budget ends in a panic. */
  ghost predicate PanicFree(budget: nat) {
    forall n: nat, es: seq<Event> :: !Run(Init(n), es, budget).panicked
  }

  lemma {:induction false} NineIsSafe(n: nat, es: seq<Event>, budget: nat)
    requires budget <= MAXOPBLOCKS - 1
    ensures !Run(Init(n), es, budget).panicked
  {
    if |es| > 0 {
      var e := es[|es| - 1];
      NineIsSafe(n, es[..|es| - 1], budget);
      RunInv(n, es[..|es| - 1], budget, LOGCAP - 1);
      var t := Run(Init(n), es[..|es| - 1], budget);
      if Enabled(t, e, budget) {
        match e
        case Begin(p) =>
        case Log(p, b) =>
          UnspentBound(t.procs, budget);
          LogKeeps(t, p, b, budget, LOGCAP - 1);
        case End(p) => EndKeeps(t, p, budget, LOGCAP - 1);
        case Commit =>
      }
    }
  }

  /** Three operations that start together and then log blocks 0, 1, 2, ..., ten each. */
  function ThreeOps(m: nat): seq<Event> {
    if m == 0 then [Begin(0), Begin(1), Begin(2)] else ThreeOps(m - 1) + [Log((m - 1) / 10, m - 1)]
  }

  function UpTo(m: nat): seq<nat> {
    seq(m, i requires 0 <= i < m => i)
  }

  function Part(p: nat, m: nat): (s: set<nat>)
    ensures |s| <= 10
    ensures 10 * p <= m < 10 * p + 10 ==> |s| == m - 10 * p
    ensures forall b :: b in s ==> b < m
  {
    if m <= 10 * p then {} else if m > 10 * p + 10 then Part(p, 10 * p + 10) else Part(p, m - 1) + {m - 1}
  }

  function ThreeOpsState(m: nat): Sys {
    Sys(LogState(3, false, UpTo(m)), seq(3, p requires 0 <= p < 3 => Inside(Part(p, m))), {}, false)
  }

  lemma ThreeBegins(budget: nat)
    ensures Run(Init(3), ThreeOps(0), budget) == ThreeOpsState(0)
  {
    var s0 := Init(3);
    var s1 := s0.(log := LogState(1, false, []), procs := [Inside({}), Outside, Outside]);
    var s2 := s0.(log := LogState(2, false, []), procs := [Inside({}), Inside({}), Outside]);
    var es := [Begin(0), Begin(1), Begin(2)];
    assert es[..0] == [];
    assert es[..1][..0] == es[..0] && Run(s0, es[..0], budget) == s0;
    assert Step(s0, Begin(0), budget) == s1;
    assert Run(s0, es[..1], budget) == s1;
    assert es[..2][..1] == es[..1];
    assert Step(s1, Begin(1), budget) == s2;
    assert Run(s0, es[..2], budget) == s2;
    assert Step(s2, Begin(2), budget).procs == ThreeOpsState(0).procs && UpTo(0) == [];
    assert es == ThreeOps(0) && es[..|es| - 1] == es[..2];
  }

  lemma ThreeOpsStep(m: nat, budget: nat)
    requires 0 < m <= LOGCAP && budget >= MAXOPBLOCKS
    ensures var s := ThreeOpsState(m - 1);
      && Enabled(s, Log((m - 1) / 10, m - 1), budget)
      && Step(s, Log((m - 1) / 10, m - 1), budget) == ThreeOpsState(m)
  {
    var p := (m - 1) / 10;
    var s, t := ThreeOpsState(m - 1), ThreeOpsState(m);
    assert s.procs[p] == Inside(Part(p, m - 1));
    PartStep(p, m);
    forall q | 0 <= q < 3 ensures t.procs[q] == s.procs[p := Inside(Part(p, m))][q] { PartStep(q, m); }
    assert t.procs == s.procs[p := Inside(Part(p, m))];
    assert UpTo(m) == UpTo(m - 1) + [m - 1];
    assert m - 1 !in UpTo(m - 1);
  }

  lemma PartStep(p: nat, m: nat)
    requires m > 0
    ensures Part(p, m) == if (m - 1) / 10 == p then Part(p, m - 1) + {m - 1} else Part(p, m - 1)
  {}

  lemma RunNext(s: Sys, es: seq<Event>, e: Event, budget: nat)
    ensures var t := Run(s, es, budget);
      Run(s, es + [e], budget) == if Enabled(t, e, budget) then Step(t, e, budget) else t
  {
    assert (es + [e])[..|es|] == es;
  }

  lemma {:induction false} ThreeOpsRun(m: nat, budget: nat)
    requires m <= LOGCAP && budget >= MAXOPBLOCKS
    ensures Run(Init(3), ThreeOps(m), budget) == ThreeOpsState(m)
  {
    hide ThreeOpsState, Enabled, Step, Run, Init;
    if m == 0 {
      ThreeBegins(budget);
    } else {
      ThreeOpsRun(m - 1, budget);
      ThreeOpsStep(m, budget);
      RunNext(Init(3), ThreeOps(m - 1), Log((m - 1) / 10, m - 1), budget);
    }
  }

  /** THE RESERVATION IS ONE BLOCK SHORT. begin_op reserves MAXOPBLOCKS blocks an operation out of
      LOGSIZE, but log_write refuses the last of them: three operations that log ten blocks each,
      m = 30 in all, run into the panic. */
  lemma TenCanPanic(m: nat, budget: nat)
    requires m == LOGSIZE && budget >= MAXOPBLOCKS
    ensures Run(Init(3), ThreeOps(m), budget).panicked
  {
    ThreeOpsRun(m - 1, budget);
    var es := ThreeOps(m);
    assert es[..|es| - 1] == ThreeOps(m - 1);
    assert Enabled(ThreeOpsState(m - 1), Log((m - 1) / 10, m - 1), budget);
  }

  /** Exactly: no run panics if and only if operations log at most nine blocks each. */
  lemma PanicFreeIff(budget: nat)
    ensures PanicFree(budget) <==> budget <= MAXOPBLOCKS - 1
  {
    if budget <= MAXOPBLOCKS - 1 {
      forall n: nat, es: seq<Event> ensures !Run(Init(n), es, budget).panicked { NineIsSafe(n, es, budget); }
    } else {
      TenCanPanic(LOGSIZE, budget);
    }
  }
}
