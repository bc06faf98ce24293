/** The life cycle of processes (proc.c: allocproc, fork, exit, wait, sleep, wakeup, yield, kill, sched,
    scheduler) on any number of processors. What happens under ptable.lock is one step, except that the
    lock stays held while a processor changes from a process's stack to the scheduler's and back. */
module LifeCycle {
  import opened Processes

  /** cpus[c] is the slot of the process on whose kernel stack processor c runs, -1 for the scheduler's
      own. lock is the processor that holds ptable.lock, -1 for none. `reaped` are the pids that wait
      has returned. */
  datatype Sys = Sys(procs: seq<Proc>, cpus: seq<int>, lock: int, nextpid: nat, reaped: seq<nat>)

  datatype Event =
    | Allocate(c: nat)                // fork: allocproc finds a slot
    | Stack(c: nat, ok: bool)         // fork: kalloc for the kernel stack
    | Copy(c: nat, ok: bool)          // fork: copyuvm, and np->parent = curproc
    | Start(c: nat)                   // fork: np->state = RUNNABLE
    | Exit(c: nat)                    // exit, up to the call of sched
    | Wait(c: nat)                    // wait: a pass over the table
    | Sleep(c: nat, id: nat)          // sleep on some other address, up to sched
    | Yield(c: nat)                   // yield, up to sched
    | SwitchOut(c: nat)               // sched: swtch to the scheduler
    | Lock(c: nat)                    // scheduler: acquire(&ptable.lock)
    | Pick(c: nat, q: nat)            // scheduler: a RUNNABLE process, swtch to it
    | Unlock(c: nat)                  // scheduler: release(&ptable.lock)
    | Resume(c: nat)                  // the process goes on after its sched
    | Wakeup(id: nat)
    | Kill(pid: nat)

  predicate Alive(p: Proc) {
    p.state == Sleeping || p.state == Runnable || p.state == Running
  }

  function Child(p: Proc): int {
    match p.fork
    case NoFork => -1
    case Found(k) => k
    case Stacked(k) => k
    case Copied(k) => k
  }

  // ----- steps -----

  /** Processor c runs a process that does not hold ptable.lock. */
  predicate InProcess(s: Sys, c: nat) {
    c < |s.cpus| && 0 <= s.cpus[c] < |s.procs| && s.lock != c
  }

  /** A process that runs, is in neither fork nor wait, and can take ptable.lock. */
  predicate CanEnter(s: Sys, c: nat) {
    InProcess(s, c) && s.lock == -1 && s.procs[s.cpus[c]].fork.NoFork? && !s.procs[s.cpus[c]].inWait
  }

  predicate InScheduler(s: Sys, c: nat) {
    c < |s.cpus| && s.cpus[c] == -1
  }

  ghost predicate Enabled(s: Sys, e: Event) {
    match e
    case Allocate(c) => CanEnter(s, c) && exists k :: FirstUnused(s.procs, k)
    case Stack(c, _) => InProcess(s, c) && s.procs[s.cpus[c]].fork.Found?
    case Copy(c, _) => InProcess(s, c) && s.procs[s.cpus[c]].fork.Stacked?
    case Start(c) => InProcess(s, c) && s.lock == -1 && s.procs[s.cpus[c]].fork.Copied?
    case Exit(c) => CanEnter(s, c) && s.cpus[c] != INIT
    case Wait(c) => CanEnter(s, c)
    case Sleep(c, _) => InProcess(s, c) && s.lock == -1 && !s.procs[s.cpus[c]].inWait
    case Yield(c) => InProcess(s, c) && s.lock == -1 && !s.procs[s.cpus[c]].inWait
    case SwitchOut(c) => c < |s.cpus| && s.lock == c && 0 <= s.cpus[c] < |s.procs|
      && s.procs[s.cpus[c]].state != Running
    case Lock(c) => InScheduler(s, c) && s.lock == -1
    case Pick(c, q) => InScheduler(s, c) && s.lock == c && q < |s.procs| && s.procs[q].state == Runnable
    case Unlock(c) => InScheduler(s, c) && s.lock == c
    case Resume(c) => c < |s.cpus| && s.lock == c && 0 <= s.cpus[c] < |s.procs| && s.procs[s.cpus[c]].state == Running
    case Wakeup(_) => s.lock == -1
    case Kill(_) => s.lock == -1
  }

  predicate FirstUnused(procs: seq<Proc>, k: int) {
    0 <= k < |procs| && procs[k].state.Unused? && forall j :: 0 <= j < k ==> !procs[j].state.Unused?
  }

  ghost predicate FirstZombie(procs: seq<Proc>, cur: nat, z: int) {
    IsZombieOf(procs, cur, z) && forall j :: 0 <= j < z ==> !IsZombieOf(procs, cur, j)
  }

  /** A pass of wait by process p on processor c, with ptable.lock held. */
  ghost function WaitPass(s: Sys, c: nat, p: nat): (t: Sys)
    requires p < |s.procs|
  {
    if z :| FirstZombie(s.procs, p, z) then
      var procs := s.procs[z := Reaped(s.procs[z])];
      s.(procs := procs[p := procs[p].(inWait := false, chan := NoChan)], lock := -1,
          reaped := s.reaped + [s.procs[z].pid])
    else if !HasKids(s.procs, p) || s.procs[p].killed then
      s.(procs := s.procs[p := s.procs[p].(inWait := false, chan := NoChan)], lock := -1)
    else
      s.(procs := s.procs[p := s.procs[p].(inWait := true, chan := Of(p), state := Sleeping)], lock := c)
  }

  ghost function Step(s: Sys, e: Event): (t: Sys)
    requires Inv(s) && Enabled(s, e)
  {
    match e
    case Allocate(c) => AllocateStep(s, s.cpus[c])
    case Stack(c, _) => ForkStep(s, e)
    case Copy(c, _) => ForkStep(s, e)
    case Start(c) => ForkStep(s, e)
    case Exit(c) => IsRunning(s, c); s.(procs := Exited(s.procs, s.cpus[c]), lock := c)
    case Wait(c) => WaitPass(s, c, s.cpus[c])
    case Sleep(c, id) => var p := s.cpus[c];
      s.(procs := s.procs[p := s.procs[p].(state := Sleeping, chan := Other(id))], lock := c)
    case Yield(c) => var p := s.cpus[c]; s.(procs := s.procs[p := s.procs[p].(state := Runnable)], lock := c)
    case SwitchOut(c) => s.(cpus := s.cpus[c := -1])
    case Lock(c) => s.(lock := c)
    case Pick(c, q) => s.(procs := s.procs[q := s.procs[q].(state := Running)], cpus := s.cpus[c := q])
    case Unlock(c) => s.(lock := -1)
    case Resume(c) =>
      var p := s.cpus[c];
      if s.procs[p].inWait then WaitPass(s, c, p)
      else s.(procs := s.procs[p := s.procs[p].(chan := NoChan)], lock := -1)
    case Wakeup(id) => s.(procs := Processes.Wakeup(s.procs, Other(id)))
    case Kill(pid) => s.(procs := Killed(s.procs, pid))
  }

  /** fork once a slot has been found. */
  ghost function ForkStep(s: Sys, e: Event): (t: Sys)
    requires Inv(s) && Enabled(s, e) && (e.Stack? || e.Copy? || e.Start?)
  {
    IsRunning(s, e.c);
    var p := s.cpus[e.c];
    if e.Stack? then StackStep(s, p, e.ok) else if e.Copy? then CopyStep(s, p, e.ok) else StartStep(s, p)
  }

  ghost function AllocateStep(s: Sys, p: nat): (t: Sys)
    requires p < |s.procs| && exists k :: FirstUnused(s.procs, k)
  {
    var k :| FirstUnused(s.procs, k);
    var procs := s.procs[k := s.procs[k].(state := Embryo, pid := s.nextpid)];
    s.(procs := procs[p := procs[p].(fork := Found(k))], nextpid := s.nextpid + 1)
  }

  function StackStep(s: Sys, p: nat, ok: bool): (t: Sys)
    requires p < |s.procs| && s.procs[p].fork.Found? && s.procs[p].fork.k < |s.procs|
  {
    var k := s.procs[p].fork.k;
    var procs := s.procs[k := if ok then s.procs[k].(kstack := true) else s.procs[k].(state := Unused)];
    s.(procs := procs[p := procs[p].(fork := if ok then Stacked(k) else NoFork)])
  }

  function CopyStep(s: Sys, p: nat, ok: bool): (t: Sys)
    requires p < |s.procs| && s.procs[p].fork.Stacked? && s.procs[p].fork.k < |s.procs|
  {
    var k := s.procs[p].fork.k;
    var procs := s.procs[k := if ok then s.procs[k].(parent := p) else s.procs[k].(kstack := false, state := Unused)];
    s.(procs := procs[p := procs[p].(fork := if ok then Copied(k) else NoFork)])
  }

  function StartStep(s: Sys, p: nat): (t: Sys)
    requires p < |s.procs| && s.procs[p].fork.Copied? && s.procs[p].fork.k < |s.procs|
  {
    var k := s.procs[p].fork.k;
    var procs := s.procs[k := s.procs[k].(state := Runnable)];
    s.(procs := procs[p := procs[p].(fork := NoFork)])
  }

  // ----- the invariant -----

  /** What holds of the process in slot p. */
  predicate ProcOk(procs: seq<Proc>, nextpid: nat, p: nat)
    requires p < |procs|
  {
    var x := procs[p];
    && (x.state != Unused ==> 1 <= x.pid < nextpid)
    && (p != INIT && (Alive(x) || x.state == Zombie) ==>
        0 <= x.parent < |procs| && x.parent != p && Alive(procs[x.parent]))
    && (x.state == Unused ==> x.parent == -1 && !x.kstack)
    && (x.state == Embryo ==> x.parent == -1 || (0 <= x.parent < |procs| && procs[x.parent].fork == Copied(p)))
    && (Alive(x) || x.state == Zombie ==> x.kstack)
    && (x.fork != NoFork ==>
          && Alive(x) && 0 <= Child(x) < |procs| && procs[Child(x)].state == Embryo
          && (x.fork.Found? ==> !procs[Child(x)].kstack && procs[Child(x)].parent == -1)
          && (x.fork.Stacked? ==> procs[Child(x)].kstack && procs[Child(x)].parent == -1)
          && (x.fork.Copied? ==> procs[Child(x)].kstack && procs[Child(x)].parent == p))
    && (x.inWait ==> Alive(x) && x.fork.NoFork?)
    && (x.state == Sleeping && x.chan.Of? ==> x.chan.slot == p && x.inWait)
    && (p == INIT ==> Alive(x) && x.parent == -1)
  }

  /** A parent asleep in wait has no zombie child. */
  predicate NoneMissed(procs: seq<Proc>, p: nat, z: nat)
    requires p < |procs| && z < |procs|
  {
    procs[p].state == Sleeping && procs[p].chan == Of(p) && procs[z].state == Zombie ==> procs[z].parent != p
  }

  ghost predicate TableOk(procs: seq<Proc>, nextpid: nat) {
    && |procs| > 0 && nextpid > 0
    && (forall p :: 0 <= p < |procs| ==> ProcOk(procs, nextpid, p))
    && (forall p, q :: 0 <= p < q < |procs| ==> Different(procs[p], procs[q]))
    && (forall p, z :: 0 <= p < |procs| && 0 <= z < |procs| ==> NoneMissed(procs, p, z))
  }

  /** Live processes have different pids, and no two are forking the same child. */
  predicate Different(x: Proc, y: Proc) {
    && (x.state != Unused && y.state != Unused ==> x.pid != y.pid)
    && (!x.fork.NoFork? && !y.fork.NoFork? ==> Child(x) != Child(y))
  }

  /** The process on whose stack a processor runs is running, or that processor holds ptable.lock. */
  predicate CpuOk(s: Sys, c: nat)
    requires c < |s.cpus|
  {
    var p := s.cpus[c];
    && -1 <= p < |s.procs|
    && (p >= 0 ==> s.procs[p].kstack)
    && (p >= 0 ==> s.procs[p].state == Running || (s.lock == c && (Alive(s.procs[p]) || s.procs[p].state == Zombie)))
  }

  ghost predicate CpusOk(s: Sys) {
    && -1 <= s.lock < |s.cpus|
    && (forall c :: 0 <= c < |s.cpus| ==> CpuOk(s, c))
    && (forall c, d :: 0 <= c < d < |s.cpus| && s.cpus[c] >= 0 ==> s.cpus[c] != s.cpus[d])
  }

  /** No pid has been reaped twice, and none that has been is in use. */
  ghost predicate ReapedOk(procs: seq<Proc>, nextpid: nat, reaped: seq<nat>) {
    && (forall i :: 0 <= i < |reaped| ==> reaped[i] < nextpid)
    && (forall i, j :: 0 <= i < j < |reaped| ==> reaped[i] != reaped[j])
    && (forall i, p :: 0 <= i < |reaped| && 0 <= p < |procs| && procs[p].state != Unused ==> procs[p].pid != reaped[i])
  }

  ghost predicate Inv(s: Sys) {
    TableOk(s.procs, s.nextpid) && CpusOk(s) && ReapedOk(s.procs, s.nextpid, s.reaped)
  }

  // ----- changes that leave the family tree alone -----

  /** From x to y in slot p, only what a process waits for has changed. */
  predicate Quiet(procs: seq<Proc>, p: nat, y: Proc)
    requires p < |procs|
  {
    var x := procs[p];
    && y.pid == x.pid && y.parent == x.parent && y.kstack == x.kstack && y.fork == x.fork
    && (y.state == x.state || (Alive(x) && Alive(y)))
    && (y.inWait ==> Alive(y) && y.fork.NoFork?)
    && (y.state == Sleeping && y.chan.Of? ==> y.chan.slot == p && y.inWait)
    && (y.state == Sleeping && y.chan.Of? ==> forall z :: 0 <= z < |procs| && procs[z].state == Zombie ==>
        procs[z].parent != p)
  }

  lemma QuietKeeps(procs: seq<Proc>, procs': seq<Proc>, nextpid: nat)
    requires TableOk(procs, nextpid) && |procs'| == |procs|
    requires forall p :: 0 <= p < |procs| ==> Quiet(procs, p, procs'[p])
    ensures TableOk(procs', nextpid)
  {
    forall p | 0 <= p < |procs| ensures ProcOk(procs', nextpid, p) {
      assert ProcOk(procs, nextpid, p) && Quiet(procs, p, procs'[p]);
      var x := procs[p];
      if 0 <= x.parent < |procs| { assert Quiet(procs, x.parent, procs'[x.parent]); }
      if 0 <= Child(x) < |procs| { assert Quiet(procs, Child(x), procs'[Child(x)]); }
    }
    forall p, q | 0 <= p < q < |procs| ensures Different(procs'[p], procs'[q]) {
      assert Different(procs[p], procs[q]) && Quiet(procs, p, procs'[p]) && Quiet(procs, q, procs'[q]);
    }
    forall p, z | 0 <= p < |procs| && 0 <= z < |procs| ensures NoneMissed(procs', p, z) {
      assert Quiet(procs, p, procs'[p]) && Quiet(procs, z, procs'[z]);
    }
  }

  lemma QuietReaped(procs: seq<Proc>, procs': seq<Proc>, nextpid: nat, reaped: seq<nat>)
    requires ReapedOk(procs, nextpid, reaped) && |procs'| == |procs|
    requires forall p :: 0 <= p < |procs| ==> Quiet(procs, p, procs'[p])
    ensures ReapedOk(procs', nextpid, reaped)
  {
    forall i, p | 0 <= i < |reaped| && 0 <= p < |procs'| && procs'[p].state != Unused
      ensures procs'[p].pid != reaped[i]
    {
      assert Quiet(procs, p, procs'[p]);
    }
  }

  /** Whatever sleeps with a reason goes on sleeping with a reason. */
  lemma StillQuiet(procs: seq<Proc>, nextpid: nat, p: nat, y: Proc)
    requires TableOk(procs, nextpid) && p < |procs|
    requires y == procs[p] || (y == procs[p].(state := Runnable) && Alive(procs[p])) || y == Marked(procs[p])
    ensures Quiet(procs, p, y)
  {
    assert ProcOk(procs, nextpid, p);
    forall z | 0 <= z < |procs| && procs[z].state == Zombie && procs[p].state == Sleeping && procs[p].chan == Of(p)
      ensures procs[z].parent != p
    {
      assert NoneMissed(procs, p, z);
    }
  }

  /** A step in which processors and the lock change, and every slot at most quietly. */
  lemma QuietStep(s: Sys, t: Sys)
    requires Inv(s) && |t.procs| == |s.procs| && t.nextpid == s.nextpid && t.reaped == s.reaped && CpusOk(t)
    requires forall p :: 0 <= p < |s.procs| ==> Quiet(s.procs, p, t.procs[p])
    ensures Inv(t)
  {
    QuietKeeps(s.procs, t.procs, s.nextpid);
    QuietReaped(s.procs, t.procs, s.nextpid, s.reaped);
  }

  /** The process that runs on processor c, if it does not hold the lock, is running. */
  lemma IsRunning(s: Sys, c: nat)
    requires Inv(s) && InProcess(s, c)
    ensures s.procs[s.cpus[c]].state == Running && ProcOk(s.procs, s.nextpid, s.cpus[c])
  {
    assert CpuOk(s, c);
  }

  /** One slot changes quietly while processor c, whose process it is, takes the lock or goes on. */
  lemma OneQuiet(s: Sys, c: nat, y: Proc, lock: int)
    requires Inv(s) && c < |s.cpus| && 0 <= s.cpus[c] < |s.procs| && (s.lock == -1 || s.lock == c)
    requires s.procs[s.cpus[c]].state == Running && Quiet(s.procs, s.cpus[c], y)
    requires lock == c || (lock == -1 && y.state == Running)
    ensures Inv(s.(procs := s.procs[s.cpus[c] := y], lock := lock))
  {
    var p := s.cpus[c];
    var t := s.(procs := s.procs[p := y], lock := lock);
    forall q | 0 <= q < |s.procs| ensures Quiet(s.procs, q, t.procs[q]) {
      if q != p { StillQuiet(s.procs, s.nextpid, q, s.procs[q]); }
    }
    forall d | 0 <= d < |t.cpus| ensures CpuOk(t, d) {
      assert CpuOk(s, d);
      assert d != c ==> s.cpus[d] != p;
    }
    QuietStep(s, t);
  }

  lemma SleepKeeps(s: Sys, e: Event)
    requires Inv(s) && Enabled(s, e) && (e.Sleep? || e.Yield?)
    ensures Inv(Step(s, e))
  {
    IsRunning(s, e.c);
    var p := s.cpus[e.c];
    var y := if e.Sleep? then s.procs[p].(state := Sleeping, chan := Other(e.id)) else s.procs[p].(state := Runnable);
    OneQuiet(s, e.c, y, e.c);
  }

  /** The scheduler's steps. */
  lemma SchedulerKeeps(s: Sys, e: Event)
    requires Inv(s) && Enabled(s, e) && (e.SwitchOut? || e.Lock? || e.Pick? || e.Unlock?)
    ensures Inv(Step(s, e))
  {
    var t := Step(s, e);
    forall q | 0 <= q < |s.procs| ensures Quiet(s.procs, q, t.procs[q]) {
      StillQuiet(s.procs, s.nextpid, q, s.procs[q]);
      assert ProcOk(s.procs, s.nextpid, q);
    }
    forall d | 0 <= d < |t.cpus| ensures CpuOk(t, d) {
      assert CpuOk(s, d);
      assert CpuOk(s, e.c);
      if e.Pick? { assert ProcOk(s.procs, s.nextpid, e.q); }
    }
    forall c, d | 0 <= c < d < |t.cpus| && t.cpus[c] >= 0 ensures t.cpus[c] != t.cpus[d] {
      assert CpuOk(s, c) && CpuOk(s, d);
    }
    QuietStep(s, t);
  }

  /** Wakeups and kill. */
  lemma WakeKeeps(s: Sys, t: Sys)
    requires Inv(s) && s.lock == -1 && t == s.(procs := t.procs) && |t.procs| == |s.procs|
    requires forall q :: 0 <= q < |s.procs| ==>
      t.procs[q] == s.procs[q] || (s.procs[q].state == Sleeping && t.procs[q] == s.procs[q].(state := Runnable))
        || t.procs[q] == Marked(s.procs[q])
    ensures Inv(t)
  {
    forall q | 0 <= q < |s.procs| ensures Quiet(s.procs, q, t.procs[q]) {
      StillQuiet(s.procs, s.nextpid, q, t.procs[q]);
    }
    forall d | 0 <= d < |t.cpus| ensures CpuOk(t, d) {
      assert CpuOk(s, d);
    }
    QuietStep(s, t);
  }

  // ----- fork -----

  lemma AllocateKeeps(s: Sys, c: nat)
    requires Inv(s) && Enabled(s, Allocate(c))
    ensures Inv(Step(s, Allocate(c)))
  {
    IsRunning(s, c);
    var p := s.cpus[c];
    var t := AllocateStep(s, p);
    var k := t.procs[p].fork.k;
    assert FirstUnused(s.procs, k);
    AllocTableOk(s, t, p, k);
    hide TableOk, AllocateStep;
    forall d | 0 <= d < |t.cpus| ensures CpuOk(t, d) { assert CpuOk(s, d); }
  }

  lemma AllocProcOk(s: Sys, t: Sys, p: nat, k: nat, q: nat)
    requires TableOk(s.procs, s.nextpid) && p < |s.procs| && k < |s.procs| && q < |s.procs| && p != k
    requires s.procs[p].state == Running && s.procs[p].fork.NoFork? && !s.procs[p].inWait && s.procs[k].state == Unused
    requires t.nextpid == s.nextpid + 1
    requires t.procs == s.procs[k := s.procs[k].(state := Embryo, pid := s.nextpid)][p := s.procs[p].(fork := Found(k))]
    ensures ProcOk(t.procs, t.nextpid, q)
  {
    assert ProcOk(s.procs, s.nextpid, q) && ProcOk(s.procs, s.nextpid, k);
    hide TableOk;
  }

  lemma AllocTableOk(s: Sys, t: Sys, p: nat, k: nat)
    requires TableOk(s.procs, s.nextpid) && p < |s.procs| && k < |s.procs| && p != k
    requires s.procs[p].state == Running && s.procs[p].fork.NoFork? && !s.procs[p].inWait && s.procs[k].state == Unused
    requires t.nextpid == s.nextpid + 1
    requires t.procs == s.procs[k := s.procs[k].(state := Embryo, pid := s.nextpid)][p := s.procs[p].(fork := Found(k))]
    ensures TableOk(t.procs, t.nextpid)
  {
    forall q | 0 <= q < |s.procs| ensures ProcOk(t.procs, t.nextpid, q) { AllocProcOk(s, t, p, k, q); }
    forall q, r | 0 <= q < r < |s.procs| ensures Different(t.procs[q], t.procs[r]) {
      assert Different(s.procs[q], s.procs[r]);
      assert ProcOk(s.procs, s.nextpid, q) && ProcOk(s.procs, s.nextpid, r);
    }
    forall q, z | 0 <= q < |s.procs| && 0 <= z < |s.procs| ensures NoneMissed(t.procs, q, z) {
      assert NoneMissed(s.procs, q, z);
    }
  }

  /** The remaining steps of fork, which change the child's slot and how far the parent is. */
  predicate ForkChange(s: Sys, t: Sys, p: nat, k: nat)
    requires p < |s.procs| && k < |s.procs|
  {
    && t == s.(procs := t.procs) && |t.procs| == |s.procs| && p != k
    && (forall q :: 0 <= q < |s.procs| && q != p && q != k ==> t.procs[q] == s.procs[q])
    && s.procs[p].state == Running && Child(s.procs[p]) == k && s.procs[k].state == Embryo
    && t.procs[p] == s.procs[p].(fork := t.procs[p].fork)
    && t.procs[k] == s.procs[k].(state := t.procs[k].state, kstack := t.procs[k].kstack, parent := t.procs[k].parent)
    && match t.procs[p].fork
       case NoFork =>
         || (t.procs[k].state == Unused && t.procs[k].parent == -1 && !t.procs[k].kstack)
         || (t.procs[k].state == Runnable && t.procs[k].parent == p && t.procs[k].kstack)
       case Found(_) => false
       case Stacked(j) => j == k && t.procs[k].state == Embryo && t.procs[k].parent == -1 && t.procs[k].kstack
       case Copied(j) => j == k && t.procs[k].state == Embryo && t.procs[k].parent == p && t.procs[k].kstack
  }

  lemma ForkChanges(s: Sys, e: Event)
    requires Inv(s) && Enabled(s, e) && (e.Stack? || e.Copy? || e.Start?)
    ensures 0 <= s.cpus[e.c] < |s.procs| && 0 <= Child(s.procs[s.cpus[e.c]]) < |s.procs|
    ensures ForkChange(s, Step(s, e), s.cpus[e.c], Child(s.procs[s.cpus[e.c]]))
  {
    IsRunning(s, e.c);
    assert ProcOk(s.procs, s.nextpid, Child(s.procs[s.cpus[e.c]]));
  }

  lemma ForkProcOk(s: Sys, t: Sys, p: nat, k: nat, q: nat)
    requires TableOk(s.procs, s.nextpid) && p < |s.procs| && k < |s.procs| && ForkChange(s, t, p, k) && q < |s.procs|
    ensures ProcOk(t.procs, t.nextpid, q)
  {
    assert ProcOk(s.procs, s.nextpid, q) && ProcOk(s.procs, s.nextpid, p) && ProcOk(s.procs, s.nextpid, k);
    assert q < p ==> Different(s.procs[q], s.procs[p]);
    assert p < q ==> Different(s.procs[p], s.procs[q]);
  }

  lemma ForkTableOk(s: Sys, t: Sys, p: nat, k: nat)
    requires TableOk(s.procs, s.nextpid) && p < |s.procs| && k < |s.procs| && ForkChange(s, t, p, k)
    ensures TableOk(t.procs, t.nextpid)
  {
    forall q | 0 <= q < |s.procs| ensures ProcOk(t.procs, t.nextpid, q) {
      ForkProcOk(s, t, p, k, q);
    }
    hide ProcOk;
    forall q, r | 0 <= q < r < |s.procs| ensures Different(t.procs[q], t.procs[r]) {
      assert Different(s.procs[q], s.procs[r]);
    }
    forall q, z | 0 <= q < |s.procs| && 0 <= z < |s.procs| ensures NoneMissed(t.procs, q, z) {
      assert NoneMissed(s.procs, q, z);
    }
  }

  lemma ForkKeeps(s: Sys, e: Event)
    requires Inv(s) && Enabled(s, e) && (e.Stack? || e.Copy? || e.Start?)
    ensures Inv(Step(s, e))
  {
    ForkChanges(s, e);
    var t := Step(s, e);
    ForkTableOk(s, t, s.cpus[e.c], Child(s.procs[s.cpus[e.c]]));
    hide TableOk, Step, Enabled;
    forall d | 0 <= d < |t.cpus| ensures CpuOk(t, d) { assert CpuOk(s, d); }
  }

  // ----- exit and wait -----

  /** exit's critical section, slot by slot. */
  lemma ExitedAt(procs: seq<Proc>, cur: nat, k: nat)
    requires cur < |procs| && k < |procs| && procs[cur].parent >= 0 && procs[cur].state == Running && cur != INIT
    ensures var x, y := procs[k], Exited(procs, cur)[k];
      && y == x.(state := y.state, parent := if x.parent == cur then INIT else x.parent)
      && (k == cur ==> y.state == Zombie)
      && (k != cur ==> y.state == x.state || (x.state == Sleeping && y.state == Runnable))
      && (k == procs[cur].parent && y.state == Sleeping ==> x.chan != Of(k))
      && (k == INIT && HasZombie(procs, cur) && y.state == Sleeping ==> x.chan != Of(k))
  {}

  lemma ExitProcOk(procs: seq<Proc>, nextpid: nat, cur: nat, q: nat)
    requires TableOk(procs, nextpid) && cur < |procs| && procs[cur].state == Running && cur != INIT
    requires procs[cur].fork.NoFork? && !procs[cur].inWait
    requires procs[cur].parent >= 0 && q < |procs|
    ensures ProcOk(Exited(procs, cur), nextpid, q)
  {
    ExitedAt(procs, cur, q);
    assert ProcOk(procs, nextpid, q) && ProcOk(procs, nextpid, cur) && ProcOk(procs, nextpid, INIT);
    var x := procs[q];
    if 0 <= x.parent < |procs| { ExitedAt(procs, cur, x.parent); }
    if 0 <= Child(x) < |procs| { ExitedAt(procs, cur, Child(x)); }
    ExitedAt(procs, cur, INIT);
    hide Exited;
  }

  lemma ExitTableOk(procs: seq<Proc>, nextpid: nat, cur: nat)
    requires TableOk(procs, nextpid) && cur < |procs| && procs[cur].state == Running && cur != INIT
    requires procs[cur].fork.NoFork? && !procs[cur].inWait
    requires procs[cur].parent >= 0
    ensures TableOk(Exited(procs, cur), nextpid)
  {
    var t := Exited(procs, cur);
    forall q | 0 <= q < |procs| ensures ProcOk(t, nextpid, q) { ExitProcOk(procs, nextpid, cur, q); }
    forall q, r | 0 <= q < r < |procs| ensures Different(t[q], t[r]) {
      ExitedAt(procs, cur, q);
      ExitedAt(procs, cur, r);
      hide Exited, ProcOk;
      assert Different(procs[q], procs[r]);
    }
    assert ProcOk(procs, nextpid, cur);
    forall q, z | 0 <= q < |procs| && 0 <= z < |procs| ensures NoneMissed(t, q, z) {
      ExitedAt(procs, cur, q);
      ExitedAt(procs, cur, z);
      hide Exited, ProcOk;
      assert NoneMissed(procs, q, z);
      assert IsZombieOf(procs, cur, z) ==> HasZombie(procs, cur);
    }
  }

  lemma ExitKeeps(s: Sys, c: nat)
    requires Inv(s) && Enabled(s, Exit(c))
    ensures Inv(Step(s, Exit(c)))
  {
    IsRunning(s, c);
    var p := s.cpus[c];
    var t := Step(s, Exit(c));
    ExitTableOk(s.procs, s.nextpid, p);
    forall q | 0 <= q < |s.procs| ensures t.procs[q].pid == s.procs[q].pid && t.procs[q].kstack == s.procs[q].kstack
      ensures q == p || t.procs[q].state == s.procs[q].state
        || (s.procs[q].state == Sleeping && t.procs[q].state == Runnable)
      ensures q == p ==> t.procs[q].state == Zombie
    {
      ExitedAt(s.procs, p, q);
    }
    hide TableOk, Exited, Step;
    forall d | 0 <= d < |t.cpus| ensures CpuOk(t, d) {
      assert CpuOk(s, d);
      assert d != c ==> s.cpus[d] != p;
    }
  }

  lemma ReapTableOk(procs: seq<Proc>, nextpid: nat, p: nat, z: nat)
    requires TableOk(procs, nextpid) && p < |procs| && IsZombieOf(procs, p, z) && procs[p].state == Running
    ensures var t := procs[z := Reaped(procs[z])]; TableOk(t[p := t[p].(inWait := false, chan := NoChan)], nextpid)
  {
    var t := procs[z := Reaped(procs[z])][p := procs[p].(inWait := false, chan := NoChan)];
    forall q | 0 <= q < |procs| ensures ProcOk(t, nextpid, q) {
      assert ProcOk(procs, nextpid, q) && ProcOk(procs, nextpid, z);
    }
    forall q, r | 0 <= q < r < |procs| ensures Different(t[q], t[r]) {
      assert Different(procs[q], procs[r]);
    }
    forall q, r | 0 <= q < |procs| && 0 <= r < |procs| ensures NoneMissed(t, q, r) {
      assert NoneMissed(procs, q, r);
    }
  }

  lemma ReapKeeps(s: Sys, c: nat, z: nat)
    requires Inv(s) && c < |s.cpus| && (s.lock == -1 || s.lock == c)
    requires 0 <= s.cpus[c] < |s.procs| && s.procs[s.cpus[c]].state == Running && IsZombieOf(s.procs, s.cpus[c], z)
    ensures forall d :: 0 <= d < |s.cpus| ==> s.cpus[d] != z
    ensures var p := s.cpus[c]; var procs := s.procs[z := Reaped(s.procs[z])];
      Inv(s.(procs := procs[p := procs[p].(inWait := false, chan := NoChan)], lock := -1,
          reaped := s.reaped + [s.procs[z].pid]))
  {
    var p := s.cpus[c];
    var procs := s.procs[z := Reaped(s.procs[z])];
    var t := s.(procs := procs[p := procs[p].(inWait := false, chan := NoChan)], lock := -1,
          reaped := s.reaped + [s.procs[z].pid]);
    ReapTableOk(s.procs, s.nextpid, p, z);
    assert ProcOk(s.procs, s.nextpid, z);
    forall q | 0 <= q < |s.procs| && q != z ensures s.procs[q].state != Unused ==> s.procs[q].pid != s.procs[z].pid {
      assert q < z ==> Different(s.procs[q], s.procs[z]);
      assert z < q ==> Different(s.procs[z], s.procs[q]);
    }
    hide TableOk, ProcOk;
    forall d | 0 <= d < |s.cpus| ensures CpuOk(t, d) && s.cpus[d] != z {
      assert CpuOk(s, d);
    }
  }

  /** A pass of wait, with the lock held by processor c or just taken. */
  lemma WaitKeeps(s: Sys, c: nat)
    requires Inv(s) && c < |s.cpus| && (s.lock == -1 || s.lock == c)
    requires 0 <= s.cpus[c] < |s.procs| && s.procs[s.cpus[c]].state == Running && s.procs[s.cpus[c]].fork.NoFork?
    ensures Inv(WaitPass(s, c, s.cpus[c]))
  {
    var p := s.cpus[c];
    assert ProcOk(s.procs, s.nextpid, p);
    if z :| FirstZombie(s.procs, p, z) {
      forall y | FirstZombie(s.procs, p, y) ensures y == z {}
      ReapKeeps(s, c, z);
    } else {
      forall z | 0 <= z < |s.procs| ensures !IsZombieOf(s.procs, p, z) { NoFirst(s.procs, p, z); }
      if !HasKids(s.procs, p) || s.procs[p].killed {
        OneQuiet(s, c, s.procs[p].(inWait := false, chan := NoChan), -1);
      } else {
        assert forall z :: 0 <= z < |s.procs| && s.procs[z].state == Zombie ==> !IsZombieOf(s.procs, p, z);
        OneQuiet(s, c, s.procs[p].(inWait := true, chan := Of(p), state := Sleeping), c);
      }
    }
  }

  /** Where there is a zombie child there is a first one. */
  lemma {:induction false} NoFirst(procs: seq<Proc>, p: nat, z: nat)
    requires z < |procs| && !exists k :: FirstZombie(procs, p, k)
    ensures forall j :: 0 <= j <= z ==> !IsZombieOf(procs, p, j)
  {
    if z > 0 { NoFirst(procs, p, z - 1); }
    assert !FirstZombie(procs, p, z);
  }

  // ----- whole runs -----

  lemma StepKeeps(s: Sys, e: Event)
    requires Inv(s) && Enabled(s, e)
    ensures Inv(Step(s, e))
  {
    match e
    case Allocate(c) => AllocateKeeps(s, c);
    case Stack(_, _) => ForkKeeps(s, e);
    case Copy(_, _) => ForkKeeps(s, e);
    case Start(_) => ForkKeeps(s, e);
    case Exit(c) => ExitKeeps(s, c);
    case Wait(c) => IsRunning(s, c); WaitKeeps(s, c);
    case Sleep(_, _) => SleepKeeps(s, e);
    case Yield(_) => SleepKeeps(s, e);
    case SwitchOut(_) => SchedulerKeeps(s, e);
    case Lock(_) => SchedulerKeeps(s, e);
    case Pick(_, _) => SchedulerKeeps(s, e);
    case Unlock(_) => SchedulerKeeps(s, e);
    case Resume(c) => ResumeKeeps(s, c);
    case Wakeup(_) => WakeKeeps(s, Step(s, e));
    case Kill(_) => WakeKeeps(s, Step(s, e));
  }

  lemma ResumeKeeps(s: Sys, c: nat)
    requires Inv(s) && Enabled(s, Resume(c))
    ensures Inv(Step(s, Resume(c)))
  {
    var p := s.cpus[c];
    assert ProcOk(s.procs, s.nextpid, p);
    if s.procs[p].inWait {
      WaitKeeps(s, c);
    } else {
      OneQuiet(s, c, s.procs[p].(chan := NoChan), -1);
    }
  }

  // ----- which states follow which -----

  /** The process on processor c makes a pass of wait now. */
  predicate Waits(s: Sys, e: Event) {
    match e
    case Wait(c) => c < |s.cpus| && 0 <= s.cpus[c] < |s.procs|
    case Resume(c) => c < |s.cpus| && 0 <= s.cpus[c] < |s.procs| && s.procs[s.cpus[c]].inWait
    case _ => false
  }

  /** The process on the event's processor; slot k is the one that it is creating. */
  function Current(s: Sys, e: Event): (p: int) {
    match e
    case Wakeup(_) => -1
    case Kill(_) => -1
    case _ => if e.c < |s.cpus| then s.cpus[e.c] else -1
  }

  predicate IsChild(s: Sys, e: Event, k: nat) {
    0 <= Current(s, e) < |s.procs| && Child(s.procs[Current(s, e)]) == k
  }

  /** kill finds slot k. */
  predicate FirstPid(procs: seq<Proc>, pid: nat, k: nat) {
    k < |procs| && procs[k].pid == pid && forall j :: 0 <= j < k ==> procs[j].pid != pid
  }

  /** exit of cur wakes slot k. */
  ghost predicate ExitWakes(procs: seq<Proc>, cur: nat, k: nat)
    requires cur < |procs| && k < |procs|
  {
    || (procs[cur].parent >= 0 && AsleepOn(procs, k, Of(procs[cur].parent)))
    || (AsleepOn(procs, k, Of(INIT)) && HasZombie(procs, cur))
  }

  /** The states of a process and what moves it from one to the next: all the arrows there are. */
  ghost function NextState(s: Sys, e: Event, p: nat): (state: State)
    requires Inv(s) && Enabled(s, e) && p < |s.procs|
  {
    var x, cur := s.procs[p], Current(s, e);
    match x.state
    case Unused => if e.Allocate? && FirstUnused(s.procs, p) then Embryo else Unused
    case Embryo =>
      if !IsChild(s, e, p) then Embryo
      else if e.Start? then Runnable
      else if (e.Stack? || e.Copy?) && !e.ok then Unused
      else Embryo
    case Runnable => if e.Pick? && e.q == p then Running else Runnable
    case Running =>
      if p != cur then Running
      else if e.Exit? then Zombie
      else if e.Sleep? then Sleeping
      else if e.Yield? then Runnable
      else if Waits(s, e) && HasKids(s.procs, p) && !x.killed && (forall z :: !IsZombieOf(s.procs, p, z)) then Sleeping
      else Running
    case Sleeping =>
      if e.Wakeup? && x.chan == Other(e.id) then Runnable
      else if e.Kill? && FirstPid(s.procs, e.pid, p) then Runnable
      else if e.Exit? && 0 <= cur < |s.procs| && ExitWakes(s.procs, cur, p) then Runnable
      else Sleeping
    case Zombie => if Waits(s, e) && 0 <= cur && FirstZombie(s.procs, cur, p) then Unused else Zombie
  }

  /** Parents change when fork names one, when exit hands children to init, and when wait frees a slot;
      marks change when kill sets one and when wait frees a slot. A process gets a new pid when its slot is
      taken and goes to sleep on what it asked for. A slot that is being created stays its creator's until
      it starts or fails. */
  ghost predicate MovesTo(s: Sys, e: Event, p: nat, y: Proc)
    requires Inv(s) && Enabled(s, e) && p < |s.procs|
  {
    && y.state == NextState(s, e, p)
    && y.parent == (
         if e.Copy? && e.ok && IsChild(s, e, p) then Current(s, e)
         else if e.Exit? && s.procs[p].parent == Current(s, e) then INIT
         else if y.state == Unused then -1
         else s.procs[p].parent)
    && (y.killed <==>
          || (e.Kill? && FirstPid(s.procs, e.pid, p))
          || (s.procs[p].killed && !(s.procs[p].state == Zombie && y.state == Unused)))
    && y.pid == (
         if s.procs[p].state == Unused && y.state == Embryo then s.nextpid
         else if s.procs[p].state == Zombie && y.state == Unused then 0
         else s.procs[p].pid)
    && (y.state == Sleeping ==>
          y.chan == if s.procs[p].state == Sleeping then s.procs[p].chan else if e.Sleep? then Other(e.id) else Of(p))
    && ChildTo(s, e, p, y)
  }

  ghost predicate ChildTo(s: Sys, e: Event, p: nat, y: Proc)
    requires p < |s.procs|
  {
    if p != Current(s, e) then Child(y) == Child(s.procs[p])
    else if e.Allocate? then FirstUnused(s.procs, Child(y))
    else if e.Start? || ((e.Stack? || e.Copy?) && !e.ok) then Child(y) == -1
    else Child(y) == Child(s.procs[p])
  }

  lemma AllocateMoves(s: Sys, e: Event, p: nat)
    requires Inv(s) && Enabled(s, e) && p < |s.procs| && e.Allocate?
    ensures |Step(s, e).procs| == |s.procs| && MovesTo(s, e, p, Step(s, e).procs[p])
  {
    IsRunning(s, e.c);
    assert ProcOk(s.procs, s.nextpid, p);
    hide TableOk, CpusOk, ReapedOk, ProcOk;
  }

  lemma StackMoves(s: Sys, e: Event, p: nat)
    requires Inv(s) && Enabled(s, e) && p < |s.procs| && e.Stack?
    ensures |Step(s, e).procs| == |s.procs| && MovesTo(s, e, p, Step(s, e).procs[p])
  {
    IsRunning(s, e.c);
    assert ProcOk(s.procs, s.nextpid, p);
    hide TableOk, CpusOk, ReapedOk, CanEnter, HasKids, AsleepOn;
  }

  lemma CopyMoves(s: Sys, e: Event, p: nat)
    requires Inv(s) && Enabled(s, e) && p < |s.procs| && e.Copy?
    ensures |Step(s, e).procs| == |s.procs| && MovesTo(s, e, p, Step(s, e).procs[p])
  {
    IsRunning(s, e.c);
    assert ProcOk(s.procs, s.nextpid, p);
    hide TableOk, CpusOk, ReapedOk, CanEnter, HasKids, AsleepOn;
  }

  lemma StartMoves(s: Sys, e: Event, p: nat)
    requires Inv(s) && Enabled(s, e) && p < |s.procs| && e.Start?
    ensures |Step(s, e).procs| == |s.procs| && MovesTo(s, e, p, Step(s, e).procs[p])
  {
    IsRunning(s, e.c);
    assert ProcOk(s.procs, s.nextpid, p);
    hide TableOk, CpusOk, ReapedOk, CanEnter, HasKids, AsleepOn;
  }

  lemma ExitMoves(s: Sys, e: Event, p: nat)
    requires Inv(s) && Enabled(s, e) && p < |s.procs| && e.Exit?
    ensures |Step(s, e).procs| == |s.procs| && MovesTo(s, e, p, Step(s, e).procs[p])
  {
    IsRunning(s, e.c);
    assert ProcOk(s.procs, s.nextpid, p);
    ExitedMeans(s.procs, s.cpus[e.c], p);
    hide TableOk, CpusOk, ReapedOk, Exited, ProcOk;
  }

  lemma WaiterMoves(s: Sys, e: Event, p: nat)
    requires Inv(s) && Enabled(s, e) && p < |s.procs| && Waits(s, e) && p == s.cpus[e.c]
    ensures |Step(s, e).procs| == |s.procs| && MovesTo(s, e, p, Step(s, e).procs[p])
  {
    var cur := s.cpus[e.c];
    assert CpuOk(s, e.c) && ProcOk(s.procs, s.nextpid, cur) && ProcOk(s.procs, s.nextpid, p);
    assert s.procs[cur].state == Running;
    NoneIsFirst(s.procs, cur);
    PassMeans(s, e.c, cur, p);
    hide TableOk, CpusOk, ReapedOk, ProcOk, CpuOk, WaitPass, HasKids, IsZombieOf;
  }

  lemma WaitedMoves(s: Sys, e: Event, p: nat)
    requires Inv(s) && Enabled(s, e) && p < |s.procs| && Waits(s, e) && p != s.cpus[e.c]
    ensures |Step(s, e).procs| == |s.procs| && MovesTo(s, e, p, Step(s, e).procs[p])
  {
    var cur := s.cpus[e.c];
    assert CpuOk(s, e.c) && ProcOk(s.procs, s.nextpid, cur) && ProcOk(s.procs, s.nextpid, p);
    assert s.procs[cur].state == Running && (s.procs[p].state == Unused ==> s.procs[p].parent == -1);
    NoneIsFirst(s.procs, cur);
    PassMeans(s, e.c, cur, p);
    hide TableOk, CpusOk, ReapedOk, ProcOk, CpuOk, WaitPass, HasKids, IsZombieOf;
  }

  /** A pass of wait as slot p sees it: freed, if it is the first zombie child; asleep, if it is the parent and
      has children but no zombie; and as it was, the parent's channel and whether it waits apart. */
  lemma PassMeans(s: Sys, c: nat, cur: nat, p: nat)
    requires cur < |s.procs| && p < |s.procs| && s.procs[cur].state == Running
    ensures var x, t := s.procs[p], WaitPass(s, c, cur);
      && |t.procs| == |s.procs|
      && var y := t.procs[p];
      && (FirstZombie(s.procs, cur, p) ==> y == Reaped(x))
      && (!FirstZombie(s.procs, cur, p) ==>
            && y.pid == x.pid && y.parent == x.parent && y.killed == x.killed && y.fork == x.fork
            && (p != cur ==> y == x)
            && (p == cur && !(exists z :: FirstZombie(s.procs, cur, z)) && HasKids(s.procs, cur) && !x.killed ==>
                  y.state == Sleeping && y.chan == Of(p))
            && (p == cur && ((exists z :: FirstZombie(s.procs, cur, z)) || !HasKids(s.procs, cur) || x.killed) ==>
                  y.state == x.state))
  {
    hide HasKids;
  }

  lemma NoneIsFirst(procs: seq<Proc>, cur: nat)
    ensures (exists z :: FirstZombie(procs, cur, z)) || forall z :: !IsZombieOf(procs, cur, z)
  {
    if !exists z :: FirstZombie(procs, cur, z) {
      forall z ensures !IsZombieOf(procs, cur, z) {
        if 0 <= z < |procs| { NoFirst(procs, cur, z); }
      }
    }
  }

  lemma SleepMoves(s: Sys, e: Event, p: nat)
    requires Inv(s) && Enabled(s, e) && p < |s.procs| && (e.Sleep? || e.Yield?)
    ensures |Step(s, e).procs| == |s.procs| && MovesTo(s, e, p, Step(s, e).procs[p])
  {
    IsRunning(s, e.c);
    assert ProcOk(s.procs, s.nextpid, p);
    hide TableOk, CpusOk, ReapedOk;
  }

  lemma ResumeMoves(s: Sys, e: Event, p: nat)
    requires Inv(s) && Enabled(s, e) && p < |s.procs| && e.Resume? && !Waits(s, e)
    ensures |Step(s, e).procs| == |s.procs| && MovesTo(s, e, p, Step(s, e).procs[p])
  {
    assert CpuOk(s, e.c) && ProcOk(s.procs, s.nextpid, p);
    hide TableOk, CpusOk, ReapedOk, CpuOk;
  }

  lemma WakeMoves(s: Sys, e: Event, p: nat)
    requires Inv(s) && Enabled(s, e) && p < |s.procs| && (e.Wakeup? || e.Kill?)
    ensures |Step(s, e).procs| == |s.procs| && MovesTo(s, e, p, Step(s, e).procs[p])
  {
    assert ProcOk(s.procs, s.nextpid, p);
    hide TableOk, CpusOk, ReapedOk;
  }

  lemma SwitchMoves(s: Sys, e: Event, p: nat)
    requires Inv(s) && Enabled(s, e) && p < |s.procs| && (e.SwitchOut? || e.Lock? || e.Pick? || e.Unlock?)
    ensures |Step(s, e).procs| == |s.procs| && MovesTo(s, e, p, Step(s, e).procs[p])
  {
    assert ProcOk(s.procs, s.nextpid, p);
    hide TableOk, CpusOk, ReapedOk;
  }

  /** In every step every slot moves along these arrows. */
  lemma StateMoves(s: Sys, e: Event, p: nat)
    requires Inv(s) && Enabled(s, e) && p < |s.procs|
    ensures |Step(s, e).procs| == |s.procs| && MovesTo(s, e, p, Step(s, e).procs[p])
  {
    if e.Allocate? { AllocateMoves(s, e, p); }
    else if e.Stack? { StackMoves(s, e, p); }
    else if e.Copy? { CopyMoves(s, e, p); }
    else if e.Start? { StartMoves(s, e, p); }
    else if e.Exit? { ExitMoves(s, e, p); }
    else if Waits(s, e) && p == s.cpus[e.c] { WaiterMoves(s, e, p); }
    else if Waits(s, e) { WaitedMoves(s, e, p); }
    else if e.Resume? { ResumeMoves(s, e, p); }
    else if e.Sleep? || e.Yield? { SleepMoves(s, e, p); }
    else if e.Wakeup? || e.Kill? { WakeMoves(s, e, p); }
    else { SwitchMoves(s, e, p); }
    hide Step, MovesTo, Inv, Enabled;
  }

  /** After a wakeup nobody sleeps on its channel. */
  lemma NobodyLeftAsleep(s: Sys, id: nat, p: nat)
    requires Inv(s) && Enabled(s, Wakeup(id)) && p < |s.procs|
    ensures |Step(s, Wakeup(id)).procs| == |s.procs| && !AsleepOn(Step(s, Wakeup(id)).procs, p, Other(id))
    ensures AsleepOn(s.procs, p, Other(id)) ==> Step(s, Wakeup(id)).procs[p] == s.procs[p].(state := Runnable)
    ensures !AsleepOn(s.procs, p, Other(id)) ==> Step(s, Wakeup(id)).procs[p] == s.procs[p]
  {}

  /** After userinit: init is runnable, all other slots are unused, every processor is in its scheduler. */
  function Boot(slots: nat, cpus: nat): (s: Sys)
    requires slots > 0
  {
    var none := Proc(Unused, 0, -1, NoChan, false, false, NoFork, false);
    Sys(seq(slots, p => if p == INIT then none.(state := Runnable, pid := 1, kstack := true) else none),
      seq(cpus, _ => -1), -1, 2, [])
  }

  /** The state after any sequence of events; those that are not possible at their turn are skipped. */
  ghost function Run(slots: nat, cpus: nat, es: seq<Event>): (s: Sys)
    requires slots > 0
    ensures Inv(s)
  {
    if |es| == 0 then Boot(slots, cpus)
    else
      var s := Run(slots, cpus, es[..|es| - 1]);
      var e := es[|es| - 1];
      if Enabled(s, e) then (StepKeeps(s, e); Step(s, e)) else s
  }

  /** Process p is in fork, and slot k is to be its child. */
  predicate Creates(s: Sys, p: nat, k: nat)
    requires p < |s.procs|
  {
    Child(s.procs[p]) == k && Alive(s.procs[p])
  }

  lemma StillCreated(s: Sys, e: Event, k: nat, p: nat)
    requires Inv(s) && Enabled(s, e) && k < |s.procs| && p < |s.procs| && Creates(s, p, k)
    requires s.procs[k].state == Embryo && NextState(s, e, k) == Embryo
    ensures p < |Step(s, e).procs| && Creates(Step(s, e), p, k)
  {
    StateMoves(s, e, p);
    assert ProcOk(s.procs, s.nextpid, p);
    hide Step, Inv;
  }

  lemma NewlyCreated(s: Sys, e: Event, k: nat)
    requires Inv(s) && Enabled(s, e) && k < |s.procs| && s.procs[k].state == Unused && NextState(s, e, k) == Embryo
    ensures 0 <= Current(s, e) < |s.procs| == |Step(s, e).procs| && Creates(Step(s, e), Current(s, e), k)
  {
    IsRunning(s, e.c);
    var p := Current(s, e);
    StateMoves(s, e, p);
    assert s.procs[p].state == Running && NextState(s, e, p) == Running;
    hide Step, Inv;
  }

  lemma SameSlots(slots: nat, cpus: nat, es: seq<Event>)
    requires slots > 0 && |es| > 0
    ensures var s, e := Run(slots, cpus, es[..|es| - 1]), es[|es| - 1];
      Run(slots, cpus, es) == if Enabled(s, e) then Step(s, e) else s
  {}

  /** No slot is left half made: each one that is being created is some process's to finish. */
  lemma {:induction false} NoSlotLost(slots: nat, cpus: nat, es: seq<Event>, k: nat)
    requires slots > 0 && k < |Run(slots, cpus, es).procs| && Run(slots, cpus, es).procs[k].state == Embryo
    ensures var s := Run(slots, cpus, es); exists p :: 0 <= p < |s.procs| && Creates(s, p, k)
  {
    if |es| > 0 {
      var n := |es| - 1;
      var s, e := Run(slots, cpus, es[..n]), es[n];
      SameSlots(slots, cpus, es);
      hide Run, Boot, Step, Inv, Creates, NextState;
      if !Enabled(s, e) {
        NoSlotLost(slots, cpus, es[..n], k);
      } else {
        KeptSlots(s, e, k);
        if s.procs[k].state == Embryo {
          NoSlotLost(slots, cpus, es[..n], k);
          var p :| 0 <= p < |s.procs| && Creates(s, p, k);
          StillCreated(s, e, k, p);
        } else {
          NewlyCreated(s, e, k);
        }
      }
    }
  }

  lemma KeptSlots(s: Sys, e: Event, k: nat)
    requires Inv(s) && Enabled(s, e) && k < |Step(s, e).procs| && Step(s, e).procs[k].state == Embryo
    ensures k < |s.procs| == |Step(s, e).procs| && NextState(s, e, k) == Embryo
    ensures s.procs[k].state == Embryo || s.procs[k].state == Unused
  {
    StateMoves(s, e, 0);
    StateMoves(s, e, k);
    hide Step;
  }

  /** Live processes have different pids. */
  lemma PidsDistinct(slots: nat, cpus: nat, es: seq<Event>, p: nat, q: nat)
    requires slots > 0
    requires var s := Run(slots, cpus, es);
      p < q < |s.procs| && s.procs[p].state != Unused && s.procs[q].state != Unused
    ensures Run(slots, cpus, es).procs[p].pid != Run(slots, cpus, es).procs[q].pid
  {
    var s := Run(slots, cpus, es);
    assert Different(s.procs[p], s.procs[q]);
  }

  /** Every process that has started, init apart, has a parent that is alive to reap it; and while a
      parent sleeps in wait, none of its children is a zombie. */
  lemma ParentsAlive(slots: nat, cpus: nat, es: seq<Event>, p: nat)
    requires slots > 0
    requires var s := Run(slots, cpus, es);
      p < |s.procs| && p != INIT && (Alive(s.procs[p]) || s.procs[p].state == Zombie)
    ensures var s := Run(slots, cpus, es); var parent := s.procs[p].parent;
      && 0 <= parent < |s.procs| && Alive(s.procs[parent])
      && (s.procs[parent].state == Sleeping && s.procs[parent].chan == Of(parent) ==> s.procs[p].state != Zombie)
  {
    var s := Run(slots, cpus, es);
    assert ProcOk(s.procs, s.nextpid, p);
    assert NoneMissed(s.procs, s.procs[p].parent, p);
  }

  /** No exit is reaped twice, and a process that is still there has not been reaped. */
  lemma ReapedOnce(slots: nat, cpus: nat, es: seq<Event>)
    requires slots > 0
    ensures var s := Run(slots, cpus, es);
      && (forall i, j :: 0 <= i < j < |s.reaped| ==> s.reaped[i] != s.reaped[j])
      && (forall i, p :: 0 <= i < |s.reaped| && 0 <= p < |s.procs| && s.procs[p].state != Unused ==>
          s.procs[p].pid != s.reaped[i])
  {
    assert Inv(Run(slots, cpus, es));
  }

  /** The stack that a processor is running on has not been freed, and is no other processor's. */
  lemma StackInUse(slots: nat, cpus: nat, es: seq<Event>, c: nat, d: nat)
    requires slots > 0
    requires var s := Run(slots, cpus, es); c < |s.cpus| && d < |s.cpus| && s.cpus[c] >= 0
    ensures var s := Run(slots, cpus, es);
      s.cpus[c] < |s.procs| && s.procs[s.cpus[c]].kstack && (s.cpus[d] == s.cpus[c] ==> c == d)
  {
    var s := Run(slots, cpus, es);
    assert CpuOk(s, c);
  }
}
