/** Sleep-locks (sleeplock.c) on top of sleep and wakeup (proc.c), one instruction group at a time. The
    two spinlocks, the sleep-lock's own and ptable.lock, are taken and dropped in steps of their own, so
    that other processes may run between any two of them. */
module SleepLock {

  /** Where a process is. The name says what it does next. */
  datatype PC =
    | Idle                        // outside
    | Busy                        // outside, holding ptable.lock for something else
    | WantLk                      // acquiresleep: acquire(&lk->lk)
    | Test                        //   while(lk->locked)
    | WantPt                      //   sleep: acquire(&ptable.lock)
    | DropLk                      //   sleep: release(lk)
    | Mark                        //   sleep: p->chan = chan, p->state = SLEEPING
    | Switch                      //   sleep: sched, and the scheduler releases ptable.lock
    | Down(asleep: bool)          //   off the processor; RUNNABLE once it is not asleep
    | Up                          //   sleep: p->chan = 0, release(&ptable.lock)
    | WantAgain                   //   sleep: acquire(lk)
    | Take                        //   lk->locked = 1, lk->pid = myproc()->pid
    | Taken                       //   release(&lk->lk)
    | Holding                     // inside the sleep-lock
    | WantRelease                 // releasesleep: acquire(&lk->lk)
    | Clear                       //   lk->locked = 0, lk->pid = 0
    | WantWake                    //   wakeup: acquire(&ptable.lock)
    | Wake(i: nat)                //   wakeup1: look at slot i
    | Woke                        //   wakeup: release(&ptable.lock)
    | Released                    //   release(&lk->lk)

  /** lk and pt say which process holds which spinlock; -1 is nobody. pid is a slot, -1 for pid 0. */
  datatype Sys = Sys(pcs: seq<PC>, lk: int, pt: int, locked: bool, pid: int)

  datatype Event = Go(p: nat) | Acquire(p: nat) | Release(p: nat) | Other(p: nat) | Kill(p: nat)

  predicate HoldsLk(c: PC) {
    c.Test? || c.WantPt? || c.DropLk? || c.Take? || c.Taken? || c.Clear? || c.WantWake? || c.Wake? || c.Woke?
      || c.Released?
  }

  predicate HoldsPt(c: PC) {
    c.Busy? || c.DropLk? || c.Mark? || c.Switch? || c.Up? || c.Wake? || c.Woke?
  }

  /** From the moment the lock is marked as taken until it is marked as free. */
  predicate Owns(c: PC) {
    c.Taken? || c.Holding? || c.WantRelease? || c.Clear?
  }

  /** Process p can do its next step on its own. */
  predicate CanGo(s: Sys, p: nat)
    requires p < |s.pcs|
  {
    match s.pcs[p]
    case Idle => false
    case Holding => false
    case WantLk => s.lk == -1
    case WantAgain => s.lk == -1
    case WantRelease => s.lk == -1
    case WantPt => s.pt == -1
    case WantWake => s.pt == -1
    case Down(asleep) => !asleep && s.pt == -1
    case _ => true
  }

  predicate Enabled(s: Sys, e: Event) {
    match e
    case Go(p) => p < |s.pcs| && CanGo(s, p)
    case Acquire(p) => p < |s.pcs| && s.pcs[p].Idle?
    case Release(p) => p < |s.pcs| && s.pcs[p].Holding?
    case Other(p) => p < |s.pcs| && s.pcs[p].Idle? && s.pt == -1
    case Kill(p) => p < |s.pcs| && s.pt == -1
  }

  function Woken(c: PC): (d: PC) { if c.Down? then Down(false) else c }

  function GoStep(s: Sys, p: nat): (t: Sys)
    requires p < |s.pcs| && CanGo(s, p)
  {
    match s.pcs[p]
    case Busy => s.(pcs := s.pcs[p := Idle], pt := -1)
    case WantLk => s.(pcs := s.pcs[p := Test], lk := p)
    case Test => s.(pcs := s.pcs[p := if s.locked then WantPt else Take])
    case WantPt => s.(pcs := s.pcs[p := DropLk], pt := p)
    case DropLk => s.(pcs := s.pcs[p := Mark], lk := -1)
    case Mark => s.(pcs := s.pcs[p := Switch])
    case Switch => s.(pcs := s.pcs[p := Down(true)], pt := -1)
    case Down(_) => s.(pcs := s.pcs[p := Up], pt := p)
    case Up => s.(pcs := s.pcs[p := WantAgain], pt := -1)
    case WantAgain => s.(pcs := s.pcs[p := Test], lk := p)
    case Take => s.(pcs := s.pcs[p := Taken], locked := true, pid := p)
    case Taken => s.(pcs := s.pcs[p := Holding], lk := -1)
    case WantRelease => s.(pcs := s.pcs[p := Clear], lk := p)
    case Clear => s.(pcs := s.pcs[p := WantWake], locked := false, pid := -1)
    case WantWake => s.(pcs := s.pcs[p := Wake(0)], pt := p)
    case Wake(i) =>
      if i < |s.pcs| then s.(pcs := s.pcs[i := Woken(s.pcs[i])][p := Wake(i + 1)]) else s.(pcs := s.pcs[p := Woke])
    case Woke => s.(pcs := s.pcs[p := Released], pt := -1)
    case Released => s.(pcs := s.pcs[p := Idle], lk := -1)
    case Idle => s
    case Holding => s
  }

  /** Kill makes a sleeper runnable no matter what it sleeps on. */
  function Step(s: Sys, e: Event): (t: Sys)
    requires Enabled(s, e)
  {
    match e
    case Go(p) => GoStep(s, p)
    case Acquire(p) => s.(pcs := s.pcs[p := WantLk])
    case Release(p) => s.(pcs := s.pcs[p := WantRelease])
    case Other(p) => s.(pcs := s.pcs[p := Busy], pt := p)
    case Kill(p) => s.(pcs := s.pcs[p := Woken(s.pcs[p])])
  }

  /** Whoever holds the spinlock with this next step is going to wake slot p. */
  predicate WillWake(c: PC, p: nat) {
    c.WantWake? || (c.Wake? && c.i <= p)
  }

  /** Going to sleep with the sleep-lock's spinlock already dropped, or asleep. */
  predicate Waits(c: PC) {
    c.Mark? || c.Switch? || c == Down(true)
  }

  ghost predicate Inv(s: Sys) {
    && -1 <= s.lk < |s.pcs| && -1 <= s.pt < |s.pcs| && -1 <= s.pid < |s.pcs|
    && (s.lk != -1 ==> HoldsLk(s.pcs[s.lk])) && (s.pt != -1 ==> HoldsPt(s.pcs[s.pt]))
    && (s.locked <==> s.pid != -1) && (s.locked ==> Owns(s.pcs[s.pid]))
    && forall p :: 0 <= p < |s.pcs| ==> ProcOk(s, p)
  }

  predicate ProcOk(s: Sys, p: nat)
    requires p < |s.pcs| && -1 <= s.lk < |s.pcs|
  {
    var c := s.pcs[p];
    && (HoldsLk(c) ==> s.lk == p)
    && (HoldsPt(c) ==> s.pt == p)
    && (Owns(c) ==> s.pid == p)
    && (c.WantPt? || c.DropLk? ==> s.locked)
    && (c.Take? || c.WantWake? || c.Wake? || c.Woke? || c.Released? ==> !s.locked)
    && (Waits(c) ==> s.locked || (s.lk != -1 && WillWake(s.pcs[s.lk], p)))
  }

  lemma OtherKeeps(s: Sys, p: nat, q: nat)
    requires Inv(s) && p < |s.pcs| && CanGo(s, p) && q < |s.pcs| && q != p
    ensures ProcOk(GoStep(s, p), q)
  {
    assert ProcOk(s, p) && ProcOk(s, q);
    var c, d, t := s.pcs[p], s.pcs[q], GoStep(s, p);
    assert t.pcs[q] == if c.Wake? && c.i == q then Woken(d) else d;
  }

  lemma OwnKeeps(s: Sys, p: nat)
    requires Inv(s) && p < |s.pcs| && CanGo(s, p)
    ensures ProcOk(GoStep(s, p), p)
  {
    assert ProcOk(s, p);
    assert s.locked ==> Owns(s.pcs[s.pid]);
  }

  lemma HoldersKept(s: Sys, p: nat)
    requires Inv(s) && p < |s.pcs| && CanGo(s, p)
    ensures var t := GoStep(s, p);
      && |t.pcs| == |s.pcs| && -1 <= t.lk < |t.pcs| && -1 <= t.pt < |t.pcs| && -1 <= t.pid < |t.pcs|
      && (t.lk != -1 ==> HoldsLk(t.pcs[t.lk])) && (t.pt != -1 ==> HoldsPt(t.pcs[t.pt]))
      && (t.locked <==> t.pid != -1) && (t.locked ==> Owns(t.pcs[t.pid]))
  {
    assert ProcOk(s, p);
  }

  lemma GoKeeps(s: Sys, p: nat)
    requires Inv(s) && p < |s.pcs| && CanGo(s, p)
    ensures Inv(GoStep(s, p))
  {
    HoldersKept(s, p);
    OwnKeeps(s, p);
    hide GoStep, ProcOk, CanGo;
    forall q | 0 <= q < |s.pcs| && q != p ensures ProcOk(GoStep(s, p), q) {
      OtherKeeps(s, p, q);
    }
  }

  /** The steps that take or drop neither the sleep-lock nor its spinlock. */
  lemma OutsideKeeps(s: Sys, e: Event, q: nat)
    requires Inv(s) && Enabled(s, e) && !e.Go? && q < |s.pcs|
    ensures ProcOk(Step(s, e), q)
  {
    assert ProcOk(s, q) && ProcOk(s, e.p);
  }

  lemma StepKeeps(s: Sys, e: Event)
    requires Inv(s) && Enabled(s, e)
    ensures Inv(Step(s, e)) && |Step(s, e).pcs| == |s.pcs|
  {
    if e.Go? {
      HoldersKept(s, e.p);
      GoKeeps(s, e.p);
    } else {
      forall q | 0 <= q < |s.pcs| ensures ProcOk(Step(s, e), q) { OutsideKeeps(s, e, q); }
    }
  }

  /** The state after any sequence of events; those that are not possible at their turn are skipped. */
  function Run(n: nat, es: seq<Event>): (s: Sys)
    ensures Inv(s) && |s.pcs| == n
  {
    if |es| == 0 then Sys(seq(n, _ => Idle), -1, -1, false, -1)
    else
      var s := Run(n, es[..|es| - 1]);
      var e := es[|es| - 1];
      if Enabled(s, e) then (StepKeeps(s, e); Step(s, e)) else s
  }

  /** At most one process is inside the sleep-lock, in every interleaving. */
  lemma MutualExclusion(n: nat, es: seq<Event>, p: nat, q: nat)
    requires p < n && q < n && Owns(Run(n, es).pcs[p]) && Owns(Run(n, es).pcs[q])
    ensures p == q
  {
    assert ProcOk(Run(n, es), p) && ProcOk(Run(n, es), q);
  }

  /** No wakeup is lost: whenever the lock's spinlock is free and a process sleeps on the lock, or is on
      its way to sleep, some process is inside the lock and will wake it. */
  lemma NoLostWakeup(n: nat, es: seq<Event>, p: nat)
    requires p < n && Waits(Run(n, es).pcs[p]) && Run(n, es).lk == -1
    ensures var s := Run(n, es); s.locked && 0 <= s.pid < n && Owns(s.pcs[s.pid])
  {
    assert ProcOk(Run(n, es), p);
  }

  /** holdingsleep, evaluated by process p under the spinlock or at a moment when it is free. */
  lemma HoldingSleep(n: nat, es: seq<Event>, p: nat)
    requires p < n
    ensures var s := Run(n, es); s.locked && s.pid == p <==> Owns(s.pcs[p])
  {
    assert ProcOk(Run(n, es), p);
  }

  /** The two spinlocks never deadlock: if nobody can move, every process is outside, inside the
      sleep-lock, or asleep; and if one is asleep then one is inside. */
  lemma NoDeadlock(n: nat, es: seq<Event>, p: nat)
    requires p < n && forall q :: 0 <= q < n ==> !CanGo(Run(n, es), q)
    ensures var s := Run(n, es);
      && (s.pcs[p].Idle? || s.pcs[p].Holding? || s.pcs[p] == Down(true))
      && (s.pcs[p] == Down(true) ==> s.locked && 0 <= s.pid < n && s.pcs[s.pid].Holding?)
  {
    var s := Run(n, es);
    assert ProcOk(s, p) && !CanGo(s, p);
    if s.pt != -1 { PtHolderGoes(s); }
    else if s.lk != -1 { LkHolderGoes(s); }
    else if s.locked { OwnerGoes(s); }
  }

  lemma PtHolderGoes(s: Sys)
    requires Inv(s) && s.pt != -1
    ensures CanGo(s, s.pt)
  {}

  lemma LkHolderGoes(s: Sys)
    requires Inv(s) && s.pt == -1 && s.lk != -1
    ensures CanGo(s, s.lk)
  {
    assert ProcOk(s, s.lk);
  }

  lemma OwnerGoes(s: Sys)
    requires Inv(s) && s.pt == -1 && s.lk == -1 && s.locked
    ensures CanGo(s, s.pid) || s.pcs[s.pid].Holding?
  {}
}
