/** The process table (proc.c): what allocproc, wakeup1, exit, wait and kill do to it while they hold
    ptable.lock. A process is named by its slot; slot 0 is init. */
module Processes {

  datatype State = Unused | Embryo | Sleeping | Runnable | Running | Zombie

  /** What a process sleeps on: its own struct proc in wait, or some other address. */
  datatype Chan = NoChan | Of(slot: nat) | Other(id: nat)

  /** How far a process is in fork with child slot k: allocproc has found a slot, has given it a kernel
      stack, and the memory has been copied and np->parent set. */
  datatype Fork = NoFork | Found(k: nat) | Stacked(k: nat) | Copied(k: nat)

  /** struct proc, and where its process is in fork and wait. parent is -1 for a null pointer. */
  datatype Proc = Proc(state: State, pid: nat, parent: int, chan: Chan, kstack: bool, killed: bool, fork: Fork,
    inWait: bool)

  const INIT: nat := 0

  // ----- the operations as functions of the table -----

  function Woken(p: Proc, chan: Chan): (q: Proc) {
    if p.state == Sleeping && p.chan == chan then p.(state := Runnable) else p
  }

  function Wakeup(procs: seq<Proc>, chan: Chan): (r: seq<Proc>)
    ensures |r| == |procs|
  {
    seq(|procs|, p requires 0 <= p < |procs| => Woken(procs[p], chan))
  }

  function Adopted(p: Proc, from: nat): (q: Proc) {
    if p.parent == from then p.(parent := INIT) else p
  }

  ghost predicate HasZombie(procs: seq<Proc>, parent: nat) {
    exists z :: 0 <= z < |procs| && procs[z].parent == parent && procs[z].state == Zombie
  }

  /** exit's critical section, as it leaves slot k: the parent is woken; children go to init, which is
      woken if one of them is a zombie; the process itself becomes a zombie. */
  ghost function ExitSlot(procs: seq<Proc>, cur: nat, k: nat): (q: Proc)
    requires cur < |procs| && k < |procs| && procs[cur].parent >= 0
  {
    var p := Adopted(Woken(procs[k], Of(procs[cur].parent)), cur);
    var q := if HasZombie(procs, cur) then Woken(p, Of(INIT)) else p;
    if k == cur then q.(state := Zombie) else q
  }

  ghost function Exited(procs: seq<Proc>, cur: nat): (r: seq<Proc>)
    requires cur < |procs| && procs[cur].parent >= 0
    ensures |r| == |procs|
  {
    seq(|procs|, k requires 0 <= k < |procs| => ExitSlot(procs, cur, k))
  }

  /** Slot k sleeps on the channel. */
  predicate AsleepOn(procs: seq<Proc>, k: nat, chan: Chan)
    requires k < |procs|
  {
    procs[k].state == Sleeping && procs[k].chan == chan
  }

  /** After exit of cur: cur is a zombie; its parent, if it waits, and init, if it waits and a child of cur is
      a zombie, are runnable; nobody else changes state; cur's children are init's, and nobody else has
      another parent. */
  lemma ExitedMeans(procs: seq<Proc>, cur: nat, k: nat)
    requires cur < |procs| && k < |procs| && 0 <= procs[cur].parent
    ensures var x, y := procs[k], Exited(procs, cur)[k];
      && y == x.(state := y.state, parent := y.parent)
      && y.parent == (if x.parent == cur then INIT else x.parent)
      && (k == cur ==> y.state == Zombie)
      && (k != cur ==>
            y.state ==
              if AsleepOn(procs, k, Of(procs[cur].parent)) || (AsleepOn(procs, k, Of(INIT)) && HasZombie(procs, cur))
              then Runnable else x.state)
  {}

  /** What wait makes of a zombie. */
  function Reaped(p: Proc): (q: Proc) {
    p.(kstack := false, pid := 0, parent := -1, killed := false, state := Unused)
  }

  predicate IsZombieOf(procs: seq<Proc>, cur: nat, z: int) {
    0 <= z < |procs| && procs[z].parent == cur && procs[z].state == Zombie
  }

  ghost predicate HasKids(procs: seq<Proc>, cur: nat) {
    exists p :: 0 <= p < |procs| && procs[p].parent == cur
  }

  // ----- the loops -----

  class Table {
    var procs: seq<Proc>
    var nextpid: nat

    /** The first half of allocproc: the first unused slot becomes an embryo with a pid of its own. */
    method Allocproc() returns (found: int)
      modifies this
      ensures found == -1 <==> forall p :: 0 <= p < |old(procs)| ==> !old(procs)[p].state.Unused?
      ensures found == -1 ==> procs == old(procs) && nextpid == old(nextpid)
      ensures found != -1 ==>
        && 0 <= found < |old(procs)| && old(procs)[found].state.Unused?
        && (forall p :: 0 <= p < found ==> !old(procs)[p].state.Unused?)
        && procs == old(procs)[found := old(procs)[found].(state := Embryo, pid := old(nextpid))]
        && nextpid == old(nextpid) + 1
    {
      var p := 0;
      while p < |procs|
        invariant 0 <= p <= |procs| && procs == old(procs) && nextpid == old(nextpid)
        invariant forall k :: 0 <= k < p ==> !procs[k].state.Unused?
      {
        if procs[p].state.Unused? {
          procs := procs[p := procs[p].(state := Embryo, pid := nextpid)];
          nextpid := nextpid + 1;
          return p;
        }
        p := p + 1;
      }
      found := -1;
    }

    /** wakeup1: whoever sleeps on the channel is runnable afterwards, and nothing else changes. */
    method Wakeup1(chan: Chan)
      modifies this`procs
      ensures |procs| == |old(procs)|
      ensures forall p :: 0 <= p < |procs| ==> !(procs[p].state == Sleeping && procs[p].chan == chan)
      ensures forall p :: 0 <= p < |procs| && old(procs)[p].state == Sleeping && old(procs)[p].chan == chan ==>
        procs[p] == old(procs)[p].(state := Runnable)
      ensures forall p :: 0 <= p < |procs| && !(old(procs)[p].state == Sleeping && old(procs)[p].chan == chan) ==>
        procs[p] == old(procs)[p]
      ensures procs == Wakeup(old(procs), chan)
    {
      var p := 0;
      while p < |procs|
        invariant 0 <= p <= |procs| == |old(procs)|
        invariant forall k :: 0 <= k < |procs| ==>
          procs[k] == if k < p then Woken(old(procs)[k], chan) else old(procs)[k]
      {
        if procs[p].state == Sleeping && procs[p].chan == chan {
          procs := procs[p := procs[p].(state := Runnable)];
        }
        p := p + 1;
      }
    }

    /** exit between acquire(&ptable.lock) and sched; `ExitedMeans` says what that is. */
    method Exit(cur: nat)
      requires cur < |procs| && cur != INIT && 0 <= procs[cur].parent && procs[cur].parent != cur
      requires procs[cur].state == Running
      modifies this`procs
      ensures procs == Exited(old(procs), cur)
    {
      ghost var was := procs;
      Wakeup1(Of(procs[cur].parent));
      ghost var mid := procs;
      var p := 0;
      while p < |procs|
        invariant 0 <= p <= |procs| == |mid| == |was|
        invariant forall k :: 0 <= k < |procs| ==> procs[k] == Passed(mid, cur, p, k)
      {
        ghost var before := procs;
        if procs[p].parent == cur {
          procs := procs[p := procs[p].(parent := INIT)];
          if procs[p].state == Zombie {
            Wakeup1(Of(INIT));
          }
        }
        PassedStep(mid, cur, p, before, procs);
        p := p + 1;
      }
      assert HasZombie(was, cur) <==> exists z :: 0 <= z < |mid| && IsZombieOf(mid, cur, z) by {
        assert forall z :: 0 <= z < |mid| ==> (IsZombieOf(mid, cur, z) <==> IsZombieOf(was, cur, z));
        if HasZombie(was, cur) {
          var z :| 0 <= z < |was| && was[z].parent == cur && was[z].state == Zombie;
          assert IsZombieOf(mid, cur, z);
        }
      }
      procs := procs[cur := procs[cur].(state := Zombie)];
    }

    /** wait's pass over the table: the first zombie child is freed, and its pid returned; else whether
        there are children at all. */
    method WaitScan(cur: nat) returns (pid: int, havekids: bool, ghost z: int)
      requires cur < |procs|
      modifies this`procs
      ensures pid == -1 <==>
        forall k :: 0 <= k < |old(procs)| ==> !(old(procs)[k].state == Zombie && old(procs)[k].parent == cur)
      ensures pid == -1 ==> procs == old(procs)
      ensures pid == -1 ==> (havekids <==> exists k :: 0 <= k < |procs| && procs[k].parent == cur)
      ensures pid != -1 ==>
        && IsZombieOf(old(procs), cur, z) && pid == old(procs)[z].pid
        && (forall k :: 0 <= k < z ==> !IsZombieOf(old(procs), cur, k))
        && procs == old(procs)[z := Reaped(old(procs)[z])]
        && procs[z].state == Unused && procs[z].pid == 0 && procs[z].parent == -1
        && !procs[z].kstack && !procs[z].killed
    {
      havekids, z := false, -1;
      var p := 0;
      while p < |procs|
        invariant 0 <= p <= |procs| && procs == old(procs)
        invariant forall k :: 0 <= k < p ==> !(procs[k].state == Zombie && procs[k].parent == cur)
        invariant havekids <==> exists k :: 0 <= k < p && procs[k].parent == cur
      {
        if procs[p].parent == cur {
          havekids := true;
          if procs[p].state == Zombie {
            assert IsZombieOf(procs, cur, p) && old(procs)[p].state == Zombie;
            pid, z := procs[p].pid, p;
            procs := procs[p := Reaped(procs[p])];
            return;
          }
        }
        p := p + 1;
      }
      pid := -1;
    }

    /** kill: the first slot with this pid, k, is marked, and woken if it sleeps; nothing else changes. */
    method Kill(pid: nat) returns (ok: bool, ghost k: nat)
      modifies this`procs
      ensures ok <==> exists j :: 0 <= j < |old(procs)| && old(procs)[j].pid == pid
      ensures !ok ==> procs == old(procs)
      ensures ok ==>
        && k < |procs| == |old(procs)| && old(procs)[k].pid == pid
        && (forall j :: 0 <= j < k ==> old(procs)[j].pid != pid)
        && procs[k].killed && procs[k].state != Sleeping
        && (old(procs)[k].state == Sleeping ==> procs[k].state == Runnable)
        && procs[k] == old(procs)[k].(killed := true, state := procs[k].state)
        && (old(procs)[k].state != Sleeping ==> procs[k].state == old(procs)[k].state)
        && forall j :: 0 <= j < |procs| && j != k ==> procs[j] == old(procs)[j]
      ensures procs == Killed(old(procs), pid)
    {
      k := 0;
      var p := 0;
      while p < |procs|
        invariant 0 <= p <= |procs| && procs == old(procs)
        invariant forall k :: 0 <= k < p ==> procs[k].pid != pid
      {
        if procs[p].pid == pid {
          procs := procs[p := procs[p].(killed := true)];
          if procs[p].state == Sleeping {
            procs := procs[p := procs[p].(state := Runnable)];
          }
          return true, p;
        }
        p := p + 1;
      }
      ok := false;
    }
  }

  function Marked(p: Proc): (q: Proc) {
    p.(killed := true, state := if p.state == Sleeping then Runnable else p.state)
  }

  ghost function Killed(procs: seq<Proc>, pid: nat): (r: seq<Proc>)
    ensures |r| == |procs|
  {
    seq(|procs|, k requires 0 <= k < |procs| =>
      if procs[k].pid == pid && (forall j :: 0 <= j < k ==> procs[j].pid != pid) then Marked(procs[k]) else procs[k])
  }

  /** Slot k after exit's loop has passed the first p slots. */
  ghost function Passed(mid: seq<Proc>, cur: nat, p: nat, k: nat): (q: Proc)
    requires k < |mid|
  {
    var a := if k < p then Adopted(mid[k], cur) else mid[k];
    if exists z :: 0 <= z < p && IsZombieOf(mid, cur, z) then Woken(a, Of(INIT)) else a
  }

  lemma PassedStep(mid: seq<Proc>, cur: nat, p: nat, before: seq<Proc>, after: seq<Proc>)
    requires p < |mid| == |before| && cur != INIT
    requires forall k :: 0 <= k < |before| ==> before[k] == Passed(mid, cur, p, k)
    requires var named := if before[p].parent == cur then before[p := before[p].(parent := INIT)] else before;
      after == if before[p].parent == cur && before[p].state == Zombie then Wakeup(named, Of(INIT)) else named
    ensures |after| == |mid| && forall k :: 0 <= k < |after| ==> after[k] == Passed(mid, cur, p + 1, k)
  {
    assert before[p].state == Zombie <==> mid[p].state == Zombie;
    assert (exists z :: 0 <= z < p + 1 && IsZombieOf(mid, cur, z)) <==>
      (exists z :: 0 <= z < p && IsZombieOf(mid, cur, z)) || IsZombieOf(mid, cur, p);
  }
}
