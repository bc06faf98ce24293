/** The aging scheduler (proc.c: scheduler): each turn scans the process table for the highest dynamic
    priority and runs that process; running lowers a process's priority, waiting raises it. */
module Scheduler {

  datatype State = Unused | Embryo | Sleeping | WaitingToStart | Runnable | Running | Zombie | Stopped | Suspended

  /** The fields of struct proc that the scheduler looks at or changes. */
  datatype Proc = Proc(state: State, suspended: bool, pid: int, creationTime: int, hasStarted: bool, firstRunTime: int,
                       totalRunTime: int, totalSleepingTime: int, startRunTick: int, contextSwitches: int,
                       execTime: int, killed: bool)

  /** INIT_PRIORITY, ALPHA and BETA come from the build. */
  datatype Weights = Weights(initial: int, alpha: nat, beta: nat)

  const FLOOR: int := -1000000000    // what best_priority starts from

  /** The process table and the tick counter. */
  datatype Sys = Sys(procs: seq<Proc>, ticks: int)

  predicate Eligible(p: Proc) {
    p.state == Runnable && !p.suspended
  }

  function Priority(w: Weights, p: Proc, ticks: int): int {
    w.initial - w.alpha * p.totalRunTime + w.beta * (ticks - p.creationTime - p.totalRunTime - p.totalSleepingTime)
  }

  function At(w: Weights, s: Sys, i: nat): int
    requires i < |s.procs|
  {
    Priority(w, s.procs[i], s.ticks)
  }

  /** i is a process that may run and is above the floor. */
  predicate Candidate(w: Weights, s: Sys, i: int) {
    0 <= i < |s.procs| && Eligible(s.procs[i]) && At(w, s, i) > FLOOR
  }

  /** i comes before j: higher priority, then lower pid, then lower slot. */
  predicate Before(w: Weights, s: Sys, i: nat, j: nat)
    requires i < |s.procs| && j < |s.procs|
  {
    || At(w, s, i) > At(w, s, j)
    || (At(w, s, i) == At(w, s, j) && s.procs[i].pid < s.procs[j].pid)
    || (At(w, s, i) == At(w, s, j) && s.procs[i].pid == s.procs[j].pid && i < j)
  }

  /** i is the candidate that comes before all other eligible processes among the first n slots. */
  ghost predicate Best(w: Weights, s: Sys, i: nat, n: nat)
    requires n <= |s.procs|
  {
    && i < n && Candidate(w, s, i)
    && forall j :: 0 <= j < n && j != i && Eligible(s.procs[j]) ==> Before(w, s, i, j)
  }

  /** The scan marks every eligible process as started. */
  function Started(p: Proc, ticks: int): (q: Proc) {
    if Eligible(p) && !p.hasStarted then p.(hasStarted := true, firstRunTime := ticks) else p
  }

  /** Whether slot k displaces the process chosen so far. */
  predicate Displaces(w: Weights, s: Sys, chosen: int, k: nat)
    requires -1 <= chosen < k < |s.procs|
  {
    && Eligible(s.procs[k])
    && if chosen == -1 then At(w, s, k) > FLOOR
       else At(w, s, k) > At(w, s, chosen) || (At(w, s, k) == At(w, s, chosen) && s.procs[k].pid < s.procs[chosen].pid)
  }

  lemma ScanStep(w: Weights, s: Sys, chosen: int, k: nat)
    requires -1 <= chosen < k < |s.procs|
    requires chosen == -1 ==> forall j :: 0 <= j < k ==> !Candidate(w, s, j)
    requires chosen != -1 ==> Best(w, s, chosen, k)
    ensures Displaces(w, s, chosen, k) ==> Best(w, s, k, k + 1)
    ensures !Displaces(w, s, chosen, k) && chosen == -1 ==> forall j :: 0 <= j < k + 1 ==> !Candidate(w, s, j)
    ensures !Displaces(w, s, chosen, k) && chosen != -1 ==> Best(w, s, chosen, k + 1)
  {
    hide Priority;
    if Displaces(w, s, chosen, k) {
      forall j | 0 <= j < k && Eligible(s.procs[j]) ensures Before(w, s, k, j) {
        assert chosen == -1 ==> !Candidate(w, s, j);
        assert chosen != -1 && j != chosen ==> Before(w, s, chosen, j);
      }
    }
  }

  class Cpu {
    const w: Weights
    var procs: seq<Proc>
    var ticks: int
    var previous: int         // slot of previous_process, -1 for none

    ghost function Now(): Sys
      reads this
    {
      Sys(procs, ticks)
    }

    /** The inner loop: the slot of the best candidate, or -1 if there is none. Every process that may run
        and is seen for the first time is marked with the time. */
    method Scan() returns (chosen: int)
      modifies this`procs
      ensures |procs| == |old(procs)| && forall j :: 0 <= j < |procs| ==> procs[j] == Started(old(procs)[j], ticks)
      ensures forall j :: 0 <= j < |procs| ==>
        && procs[j] == old(procs)[j].(hasStarted := procs[j].hasStarted, firstRunTime := procs[j].firstRunTime)
        && (procs[j].hasStarted <==> old(procs)[j].hasStarted || Eligible(old(procs)[j]))
        && procs[j].firstRunTime ==
             (if Eligible(old(procs)[j]) && !old(procs)[j].hasStarted then ticks else old(procs)[j].firstRunTime)
      ensures chosen == -1 <==> forall j :: 0 <= j < |procs| ==> !Candidate(w, old(Now()), j)
      ensures chosen != -1 ==> 0 <= chosen < |procs| && Best(w, old(Now()), chosen, |procs|)
    {
      ghost var s := Now();
      chosen := -1;
      var best := FLOOR;
      var k := 0;
      while k < |procs|
        invariant 0 <= k <= |procs| == |s.procs|
        invariant forall j :: 0 <= j < |procs| ==> procs[j] == if j < k then Started(s.procs[j], ticks) else s.procs[j]
        invariant chosen == -1 ==> best == FLOOR && forall j :: 0 <= j < k ==> !Candidate(w, s, j)
        invariant chosen != -1 ==> 0 <= chosen < k && Best(w, s, chosen, k) && best == At(w, s, chosen)
      {
        ScanStep(w, s, chosen, k);
        var p := procs[k];
        if p.state == Runnable && !p.suspended {
          if !p.hasStarted {
            p := p.(hasStarted := true, firstRunTime := ticks);
            procs := procs[k := p];
          }
          var tat := ticks - p.creationTime;
          var wt := tat - p.totalRunTime - p.totalSleepingTime;
          var dynamic := w.initial - w.alpha * p.totalRunTime + w.beta * wt;
          assert dynamic == At(w, s, k) && p.pid == s.procs[k].pid;
          if dynamic > best || (dynamic == best && chosen != -1 && p.pid < procs[chosen].pid) {
            best := dynamic;
            chosen := k;
          }
        }
        k := k + 1;
      }
    }

    /** The outer loop up to swtch: scan, and hand the processor to the chosen process. */
    method Pick() returns (chosen: int)
      modifies this`procs
      ensures chosen == -1 <==> forall j :: 0 <= j < |old(procs)| ==> !Candidate(w, old(Now()), j)
      ensures chosen == -1 ==>
        |procs| == |old(procs)| && forall j :: 0 <= j < |procs| ==> procs[j] == Started(old(procs)[j], ticks)
      ensures chosen != -1 ==> 0 <= chosen < |old(procs)| && Best(w, old(Now()), chosen, |old(procs)|)
      ensures chosen != -1 ==> procs == HandedOver(old(procs), chosen, ticks, previous)
      ensures chosen != -1 ==>
        && procs[chosen].state == Running && procs[chosen].startRunTick == ticks
        && procs[chosen].contextSwitches == old(procs)[chosen].contextSwitches + (if previous == chosen then 0 else 1)
    {
      chosen := Scan();
      if chosen != -1 {
        var p := procs[chosen].(startRunTick := ticks);
        if previous != chosen || previous == -1 {
          p := p.(contextSwitches := p.contextSwitches + 1);
        }
        procs := procs[chosen := p.(state := Running)];
        assert procs == HandedOver(old(procs), chosen, ticks, previous);
      }
    }

    /** sleep after its sched: the ticks since it began count as sleeping time. */
    method EndSleep(i: nat, start: int)
      requires i < |procs|
      modifies this`procs
      ensures procs == old(procs)[i := SleepOver(old(procs)[i], start, ticks)]
    {
      procs := procs[i := procs[i].(totalSleepingTime := procs[i].totalSleepingTime + (ticks - start))];
    }

    /** The outer loop after swtch: the process is charged the ticks that have passed, and killed if its
        time is used up. */
    method TakeBack(chosen: nat)
      requires chosen < |procs|
      modifies this`procs, this`previous
      ensures procs == old(procs)[chosen := Charged(old(procs)[chosen], ticks)] && previous == chosen
      ensures procs[chosen].totalRunTime - old(procs)[chosen].totalRunTime == ticks - old(procs)[chosen].startRunTick
      ensures procs[chosen].killed <==>
        old(procs)[chosen].killed || (0 < procs[chosen].execTime <= procs[chosen].totalRunTime)
    {
      var p := procs[chosen];
      p := p.(totalRunTime := p.totalRunTime + (ticks - p.startRunTick));
      if p.execTime > 0 && p.totalRunTime >= p.execTime {
        p := p.(killed := true);
      }
      procs := procs[chosen := p];
      previous := chosen;
    }
  }

  /** The table when the chosen process starts to run. */
  function HandedOver(procs: seq<Proc>, chosen: nat, ticks: int, previous: int): (r: seq<Proc>)
    requires chosen < |procs|
  {
    seq(|procs|, j requires 0 <= j < |procs| =>
      var p := Started(procs[j], ticks);
      if j == chosen then p.(startRunTick := ticks, state := Running,
        contextSwitches := p.contextSwitches + if previous == chosen then 0 else 1)
      else p)
  }

  /** A process that gives the processor back at time `now`. */
  function Charged(p: Proc, now: int): (q: Proc) {
    var t := p.totalRunTime + (now - p.startRunTick);
    p.(totalRunTime := t, killed := p.killed || (p.execTime > 0 && t >= p.execTime))
  }

  /** A turn in which the chosen process runs for one tick and then yields is one dispatch. */
  lemma TurnIsDispatch(w: Weights, s: Sys, chosen: nat, previous: int, t: Sys)
    requires chosen < |s.procs| && Best(w, s, chosen, |s.procs|)
    requires var run := HandedOver(s.procs, chosen, s.ticks, previous);
      && t.ticks == s.ticks + 1
      && t.procs == run[chosen := Charged(run[chosen].(state := Runnable), t.ticks)]
    ensures Dispatch(w, s, chosen, t)
  {
    forall j | 0 <= j < |s.procs| ensures SameButRun(s.procs[j], t.procs[j], if j == chosen then 1 else 0) {}
  }

  // ----- what the priority measures -----

  /** How a process spent a tick: on the processor, asleep, runnable after a wakeup that it has not yet come
      back from, or runnable otherwise. */
  datatype Phase = Ran | Slept | Woken | Waited

  /** A process with its history: one phase for every tick since it was created. `asleepSince` is the local
      variable sleep_start_tick of a call of sleep that has not returned, Awake outside of sleep. */
  datatype Since = Awake | From(tick: int)
  datatype Life = Life(p: Proc, ticks: int, asleepSince: Since, history: seq<Phase>)

  datatype Moment = Tick | GoOn | Yield | Sleep | Wake

  function PhaseOf(l: Life): (h: Phase) {
    if l.p.state == Running then Ran
    else if l.p.state == Sleeping then Slept
    else if l.asleepSince.From? then Woken
    else Waited
  }

  predicate CanHappen(l: Life, e: Moment) {
    match e
    case Tick => true
    case GoOn => l.p.state == Runnable
    case Yield => l.p.state == Running
    case Sleep => l.p.state == Running
    case Wake => l.p.state == Sleeping
  }

  /** The counters as the code keeps them: run time is charged when the processor is given back, sleeping
      time when sleep goes on after its sched, that is, when the process is dispatched again. */
  function Happen(l: Life, e: Moment): (m: Life)
    requires CanHappen(l, e)
  {
    match e
    case Tick => l.(ticks := l.ticks + 1, history := l.history + [PhaseOf(l)])
    case GoOn =>
      var p := l.p.(state := Running, startRunTick := l.ticks);
      l.(p := if l.asleepSince.From? then SleepOver(p, l.asleepSince.tick, l.ticks) else p, asleepSince := Awake)
    case Yield => l.(p := Charged(l.p, l.ticks).(state := Runnable))
    case Sleep => l.(p := Charged(l.p, l.ticks).(state := Sleeping), asleepSince := From(l.ticks))
    case Wake => l.(p := l.p.(state := Runnable))
  }

  /** p->total_sleeping_time += (ticks - sleep_start_tick) */
  function SleepOver(p: Proc, start: int, ticks: int): (q: Proc) {
    p.(totalSleepingTime := p.totalSleepingTime + (ticks - start))
  }

  /** As fork leaves it. */
  predicate Newborn(l: Life) {
    && l.p.state == Runnable && l.p.creationTime == l.ticks && l.p.totalRunTime == 0 && l.p.totalSleepingTime == 0
    && !l.p.killed && l.asleepSince.Awake? && l.history == []
  }

  function Spent(h: seq<Phase>, x: Phase): (n: nat) {
    if |h| == 0 then 0 else Spent(h[..|h| - 1], x) + if h[|h| - 1] == x then 1 else 0
  }

  /** The ticks since the sleep began that has not been charged yet. */
  function Uncharged(l: Life): int {
    if l.asleepSince.From? then l.ticks - l.asleepSince.tick else 0
  }

  /** The counters against the history. */
  predicate Counted(l: Life) {
    && l.ticks == l.p.creationTime + |l.history|
    && Spent(l.history, Ran) == l.p.totalRunTime + (if l.p.state == Running then l.ticks - l.p.startRunTick else 0)
    && Spent(l.history, Slept) + Spent(l.history, Woken) == l.p.totalSleepingTime + Uncharged(l)
    && |l.history| ==
      Spent(l.history, Ran) + Spent(l.history, Slept) + Spent(l.history, Woken) + Spent(l.history, Waited)
    && (l.p.state == Running || l.p.state == Sleeping || l.p.state == Runnable)
    && (l.p.state == Running ==> l.asleepSince.Awake?) && (l.p.state == Sleeping ==> l.asleepSince.From?)
    && (l.p.state != Running ==> (0 < l.p.execTime <= Spent(l.history, Ran) ==> l.p.killed))
  }

  /** What happened to a process since it was created; a moment that cannot happen is skipped. */
  function Lived(l: Life, es: seq<Moment>): (m: Life) {
    if |es| == 0 then l
    else
      var before := Lived(l, es[..|es| - 1]);
      if CanHappen(before, es[|es| - 1]) then Happen(before, es[|es| - 1]) else before
  }

  lemma CountedStep(l: Life, e: Moment)
    requires Counted(l) && CanHappen(l, e)
    ensures Counted(Happen(l, e))
  {
    if e.Tick? {
      var h := l.history + [PhaseOf(l)];
      assert h[..|h| - 1] == l.history;
    }
  }

  lemma {:induction false} AlwaysCounted(l: Life, es: seq<Moment>)
    requires Newborn(l) && l.p.execTime >= 0
    ensures Counted(Lived(l, es))
  {
    if |es| > 0 {
      AlwaysCounted(l, es[..|es| - 1]);
      var before := Lived(l, es[..|es| - 1]);
      if CanHappen(before, es[|es| - 1]) { CountedStep(before, es[|es| - 1]); }
    } else if l.p.execTime > 0 {
      assert Spent(l.history, Ran) == 0;
    }
  }

  /** The priority by which the scan chooses, in what the process has lived through: running lowers it, and
      every tick of waiting raises it, where waiting is counted but for the wait that follows a wakeup, and
      a sleep counts as waiting until the process has been dispatched again. */
  function Measured(w: Weights, l: Life): int {
    w.initial - w.alpha * Spent(l.history, Ran) + w.beta * (Spent(l.history, Waited) + Uncharged(l))
  }

  lemma PriorityMeans(w: Weights, l: Life)
    requires Counted(l) && l.p.state == Runnable
    ensures Priority(w, l.p, l.ticks) == Measured(w, l)
  {}

  /** That is run time against all the time that the process was runnable and did not run if and only if the
      waits after wakeups and the sleep that is not yet charged are equally long, or BETA is 0. It is so for a
      process that has not slept. */
  lemma MeasuresWaitingIff(w: Weights, l: Life)
    requires Counted(l) && l.p.state == Runnable
    ensures Priority(w, l.p, l.ticks) ==
        w.initial - w.alpha * Spent(l.history, Ran) + w.beta * (Spent(l.history, Waited) + Spent(l.history, Woken))
      <==> w.beta == 0 || Spent(l.history, Woken) == Uncharged(l)
    ensures l.asleepSince.Awake? && Spent(l.history, Slept) + Spent(l.history, Woken) == 0 ==>
      Spent(l.history, Woken) == Uncharged(l)
  {
    PriorityMeans(w, l);
    var x, y := Spent(l.history, Waited) + Uncharged(l), Spent(l.history, Waited) + Spent(l.history, Woken);
    if w.beta > 0 { SameProduct(w.beta, x, y); }
  }

  lemma SameProduct(b: int, x: int, y: int)
    requires b > 0
    ensures b * x == b * y <==> x == y
  {
    assert b * x - b * y == b * (x - y);
    if x > y { assert b * (x - y) > 0; }
    if x < y { assert b * (y - x) > 0; }
  }

  lemma LivedMore(l: Life, es: seq<Moment>, e: Moment)
    ensures Lived(l, es + [e]) == if CanHappen(Lived(l, es), e) then Happen(Lived(l, es), e) else Lived(l, es)
  {
    assert (es + [e])[..|es|] == es;
  }

  lemma SpentMore(h: seq<Phase>, a: Phase, x: Phase)
    ensures Spent(h + [a], x) == Spent(h, x) + if a == x then 1 else 0
  {
    assert (h + [a])[..|h|] == h;
  }

  /** It is not so in general: a process that is dispatched as soon as it is created, sleeps for two ticks and is
      woken has waited for none, and the scan counts two. */
  lemma SleepCountsAsWaiting(l: Life)
    requires Newborn(l)
    ensures var m := Lived(l, [] + [GoOn] + [Sleep] + [Tick] + [Tick] + [Wake]); var w := Weights(0, 1, 1);
      && m.p.state == Runnable && Priority(w, m.p, m.ticks) == 2
      && Spent(m.history, Waited) == Spent(m.history, Woken) == Spent(m.history, Ran) == 0
  {
    NapLived(l);
    NapSpent();
    hide Lived, Spent;
  }

  /** After such a nap. */
  function Nap(l: Life): (m: Life) {
    l.(p := l.p.(startRunTick := l.ticks, totalRunTime := l.p.totalRunTime + 0,
                 killed := l.p.killed || (l.p.execTime > 0 && l.p.totalRunTime >= l.p.execTime)),
       ticks := l.ticks + 2, asleepSince := From(l.ticks), history := [] + [Slept] + [Slept])
  }

  lemma NapLived(l: Life)
    requires Newborn(l)
    ensures Lived(l, [] + [GoOn] + [Sleep] + [Tick] + [Tick] + [Wake]) == Nap(l)
  {
    LivedNothing(l);
    LivedMore(l, [], GoOn);
    LivedMore(l, [] + [GoOn], Sleep);
    LivedMore(l, [] + [GoOn] + [Sleep], Tick);
    LivedMore(l, [] + [GoOn] + [Sleep] + [Tick], Tick);
    LivedMore(l, [] + [GoOn] + [Sleep] + [Tick] + [Tick], Wake);
    hide Lived;
  }

  lemma NapSpent()
    ensures var h: seq<Phase> := [] + [Slept] + [Slept];
      Spent(h, Waited) == Spent(h, Woken) == Spent(h, Ran) == 0
  {
    var h: seq<Phase> := [];
    SpentMore(h, Slept, Waited);
    SpentMore(h, Slept, Woken);
    SpentMore(h, Slept, Ran);
    SpentMore(h + [Slept], Slept, Waited);
    SpentMore(h + [Slept], Slept, Woken);
    SpentMore(h + [Slept], Slept, Ran);
  }

  lemma LivedNothing(l: Life)
    ensures Lived(l, []) == l
  {}

  /** The choice of the scan in those counts: nobody that may run has a higher measure, and of those with the
      same measure the one with the lowest pid is chosen. */
  lemma ChoiceMeans(w: Weights, s: Sys, lives: seq<Life>, i: nat, j: nat)
    requires |lives| == |s.procs| && i < |lives| && j < |lives| && j != i
    requires Best(w, s, i, |s.procs|) && Eligible(s.procs[j])
    requires forall k :: 0 <= k < |lives| && Eligible(s.procs[k]) ==>
      Counted(lives[k]) && lives[k].p == s.procs[k] && lives[k].ticks == s.ticks
    ensures Measured(w, lives[i]) >= Measured(w, lives[j])
    ensures Measured(w, lives[i]) == Measured(w, lives[j]) ==> s.procs[i].pid <= s.procs[j].pid
  {
    PriorityMeans(w, lives[i]);
    PriorityMeans(w, lives[j]);
    hide Priority, Measured;
    assert Before(w, s, i, j);
  }

  // ----- fairness -----

  /** One dispatch with a fixed set of processes that can always run: slot i, the best one, runs for
      one tick and is charged for it. */
  ghost predicate Dispatch(w: Weights, s: Sys, i: nat, t: Sys) {
    && |t.procs| == |s.procs| && t.ticks == s.ticks + 1
    && Best(w, s, i, |s.procs|)
    && forall j :: 0 <= j < |s.procs| ==> SameButRun(s.procs[j], t.procs[j], if j == i then 1 else 0)
  }

  predicate SameButRun(p: Proc, q: Proc, ran: int) {
    && (Eligible(q) <==> Eligible(p)) && q.pid == p.pid
    && q.creationTime == p.creationTime && q.totalSleepingTime == p.totalSleepingTime
    && q.totalRunTime == p.totalRunTime + ran
  }

  /** What one dispatch does to priorities. */
  lemma PriorityMoves(w: Weights, s: Sys, i: nat, t: Sys, j: nat)
    requires Dispatch(w, s, i, t) && j < |s.procs|
    ensures At(w, t, j) == if j == i then At(w, s, j) - w.alpha else At(w, s, j) + w.beta
  {
    var p, q := s.procs[j], t.procs[j];
    var ran := if j == i then 1 else 0;
    assert SameButRun(p, q, ran);
    assert w.alpha * q.totalRunTime == w.alpha * p.totalRunTime + w.alpha * ran;
    var a := s.ticks - p.creationTime - p.totalRunTime - p.totalSleepingTime;
    assert w.beta * (a + 1 - ran) == w.beta * a + w.beta * (1 - ran);
  }

  /** No two eligible priorities are more than d apart. */
  ghost predicate Spread(w: Weights, s: Sys, d: nat) {
    forall j, k :: 0 <= j < |s.procs| && 0 <= k < |s.procs| && Eligible(s.procs[j]) && Eligible(s.procs[k]) ==>
      At(w, s, j) - At(w, s, k) <= d
  }

  /** A spread of at least ALPHA + BETA is kept by every dispatch. */
  lemma SpreadKept(w: Weights, s: Sys, i: nat, t: Sys, d: nat)
    requires Dispatch(w, s, i, t) && Spread(w, s, d) && d >= w.alpha + w.beta
    ensures Spread(w, t, d)
  {
    forall j, k | 0 <= j < |t.procs| && 0 <= k < |t.procs| && Eligible(t.procs[j]) && Eligible(t.procs[k])
      ensures At(w, t, j) - At(w, t, k) <= d
    {
      PriorityMoves(w, s, i, t, j);
      PriorityMoves(w, s, i, t, k);
      assert SameButRun(s.procs[j], t.procs[j], if j == i then 1 else 0);
      assert SameButRun(s.procs[k], t.procs[k], if k == i then 1 else 0);
      assert j != i ==> Before(w, s, i, j);
    }
  }

  /** How often a process whose priority is `above` over another's can still be picked before it: each
      time, ALPHA + BETA of its lead is gone. */
  function Turns(w: Weights, above: int): (n: nat)
    requires w.alpha + w.beta > 0
    decreases above + 1
  {
    if above < 0 then 0 else 1 + Turns(w, above - (w.alpha + w.beta))
  }

  lemma {:induction false} TurnsMonotone(w: Weights, a: int, b: int)
    requires w.alpha + w.beta > 0 && a <= b
    ensures Turns(w, a) <= Turns(w, b)
    decreases a + 1
  {
    if a >= 0 { TurnsMonotone(w, a - (w.alpha + w.beta), b - (w.alpha + w.beta)); }
  }

  lemma {:induction false} TurnsIs(w: Weights, above: nat)
    requires w.alpha + w.beta > 0
    ensures Turns(w, above) == above / (w.alpha + w.beta) + 1
    decreases above
  {
    var c := w.alpha + w.beta;
    if above >= c {
      TurnsIs(w, above - c);
      DivDown(above, c);
    }
  }

  lemma DivDown(a: nat, c: nat)
    requires 0 < c <= a
    ensures (a - c) / c == a / c - 1
  {
    var x := a / c - (a - c) / c - 1;
    assert c * (a / c) + a % c == a && c * ((a - c) / c) + (a - c) % c == a - c;
    assert c * x == c * (a / c) - c * ((a - c) / c) - c;
    MulSign(c, x);
  }

  lemma MulSign(c: int, x: int)
    requires c > 0
    ensures x >= 1 ==> c * x >= c
    ensures x <= -1 ==> c * x <= -c
  {}

  /** The dispatches of others among the first n slots that can still come before i's. */
  function Ahead(w: Weights, s: Sys, i: nat, n: nat): (k: nat)
    requires w.alpha + w.beta > 0 && i < |s.procs| && n <= |s.procs|
  {
    if n == 0 then 0
    else
      Ahead(w, s, i, n - 1)
      + if n - 1 != i && Eligible(s.procs[n - 1]) then Turns(w, At(w, s, n - 1) - At(w, s, i)) else 0
  }

  /** How many of the first n slots are eligible. */
  function Count(s: Sys, n: nat): (k: nat)
    requires n <= |s.procs|
  {
    if n == 0 then 0 else Count(s, n - 1) + if Eligible(s.procs[n - 1]) then 1 else 0
  }

  /** Others than i. */
  function Others(s: Sys, i: nat, n: nat): (k: nat)
    requires n <= |s.procs|
  {
    if n == 0 then 0 else Others(s, i, n - 1) + if n - 1 != i && Eligible(s.procs[n - 1]) then 1 else 0
  }

  lemma {:induction false} OthersCount(s: Sys, i: nat, n: nat)
    requires n <= |s.procs| && i < |s.procs| && Eligible(s.procs[i])
    ensures Others(s, i, n) == Count(s, n) - if i < n then 1 else 0
  {
    if n > 0 { OthersCount(s, i, n - 1); }
  }

  lemma {:induction false} AheadBound(w: Weights, s: Sys, i: nat, n: nat, d: nat)
    requires w.alpha + w.beta > 0 && i < |s.procs| && n <= |s.procs| && Eligible(s.procs[i]) && Spread(w, s, d)
    ensures Ahead(w, s, i, n) <= Others(s, i, n) * Turns(w, d)
  {
    if n > 0 {
      AheadBound(w, s, i, n - 1, d);
      if n - 1 != i && Eligible(s.procs[n - 1]) {
        TurnsMonotone(w, At(w, s, n - 1) - At(w, s, i), d);
        OneMoreTime(Others(s, i, n - 1), Turns(w, d));
      }
    }
  }

  lemma OneMoreTime(a: nat, b: nat)
    ensures (a + 1) * b == a * b + b
  {}

  /** A dispatch of another process uses up exactly one of the dispatches that can come before i's. */
  lemma {:induction false} AheadDown(w: Weights, s: Sys, p: nat, t: Sys, i: nat, n: nat)
    requires w.alpha + w.beta > 0 && Dispatch(w, s, p, t) && p != i && i < |s.procs| && n <= |s.procs|
    requires Eligible(s.procs[i])
    ensures Ahead(w, t, i, n) == Ahead(w, s, i, n) - if p < n then 1 else 0
  {
    if n > 0 {
      AheadDown(w, s, p, t, i, n - 1);
      PriorityMoves(w, s, p, t, n - 1);
      PriorityMoves(w, s, p, t, i);
      assert SameButRun(s.procs[n - 1], t.procs[n - 1], if n - 1 == p then 1 else 0);
      if n - 1 == p {
        assert Before(w, s, p, i);
      }
    }
  }

  /** states[k] to states[k + 1] is the dispatch of picks[k]. */
  ghost predicate Runs(w: Weights, states: seq<Sys>, picks: seq<nat>) {
    && |states| == |picks| + 1
    && forall k :: 0 <= k < |picks| ==> DispatchAt(w, states, picks, k)
  }

  ghost predicate DispatchAt(w: Weights, states: seq<Sys>, picks: seq<nat>, k: nat)
    requires |states| == |picks| + 1 && k < |picks|
  {
    Dispatch(w, states[k], picks[k], states[k + 1])
  }

  /** What stays as it is in a run. */
  lemma {:induction false} RunKeeps(w: Weights, states: seq<Sys>, picks: seq<nat>, k: nat, d: nat)
    requires Runs(w, states, picks) && k <= |picks| && Spread(w, states[0], d) && d >= w.alpha + w.beta
    ensures |states[k].procs| == |states[0].procs| && Spread(w, states[k], d)
    ensures forall j :: 0 <= j < |states[0].procs| ==> (Eligible(states[k].procs[j]) <==> Eligible(states[0].procs[j]))
  {
    if k > 0 {
      RunKeeps(w, states, picks, k - 1, d);
      assert DispatchAt(w, states, picks, k - 1);
      SpreadKept(w, states[k - 1], picks[k - 1], states[k], d);
      forall j | 0 <= j < |states[0].procs| ensures Eligible(states[k].procs[j]) <==> Eligible(states[0].procs[j]) {
        assert SameButRun(states[k - 1].procs[j], states[k].procs[j], if j == picks[k - 1] then 1 else 0);
      }
    }
  }

  lemma {:induction false} NotPicked(w: Weights, states: seq<Sys>, picks: seq<nat>, i: nat, a: nat, k: nat, d: nat)
    requires w.alpha + w.beta > 0 && Runs(w, states, picks) && a <= k <= |picks|
    requires Spread(w, states[0], d) && d >= w.alpha + w.beta && i < |states[0].procs| && Eligible(states[0].procs[i])
    requires forall n :: a <= n < k ==> picks[n] != i
    ensures |states[k].procs| == |states[a].procs| == |states[0].procs|
    ensures Ahead(w, states[k], i, |states[0].procs|) == Ahead(w, states[a], i, |states[0].procs|) - (k - a)
    decreases k
  {
    hide Spread, At, Ahead;
    RunKeeps(w, states, picks, a, d);
    if k > a {
      NotPicked(w, states, picks, i, a, k - 1, d);
      RunKeeps(w, states, picks, k - 1, d);
      assert DispatchAt(w, states, picks, k - 1);
      AheadDown(w, states[k - 1], picks[k - 1], states[k], i, |states[0].procs|);
    }
  }

  function Max(a: nat, b: nat): nat { if a < b then b else a }

  /** Fairness: whatever the priorities at the start, with `spread` between the highest and the lowest,
      every eligible process is among any (N-1) * (D / (ALPHA + BETA) + 1) + 1 dispatches in a row, for
      N eligible processes and D = max(spread, ALPHA + BETA). */
  lemma Fair(w: Weights, states: seq<Sys>, picks: seq<nat>, spread: nat, i: nat, a: nat, len: nat)
    requires w.alpha + w.beta > 0 && Runs(w, states, picks) && Spread(w, states[0], spread)
    requires i < |states[0].procs| && Eligible(states[0].procs[i])
    requires a + len <= |picks|
    requires len > (Count(states[0], |states[0].procs|) - 1) * (Max(spread, w.alpha + w.beta) / (w.alpha + w.beta) + 1)
    ensures exists k :: a <= k < a + len && picks[k] == i
  {
    var d := Max(spread, w.alpha + w.beta);
    var n := |states[0].procs|;
    RunKeeps(w, states, picks, a, d);
    AheadBound(w, states[a], i, n, d);
    OthersCount(states[a], i, n);
    SameCount(states[0], states[a], n);
    TurnsIs(w, d);
    if forall k :: a <= k < a + len ==> picks[k] != i {
      NotPicked(w, states, picks, i, a, a + len, d);
    }
  }

  lemma {:induction false} SameCount(s: Sys, t: Sys, n: nat)
    requires n <= |s.procs| == |t.procs|
    requires forall j :: 0 <= j < |s.procs| ==> (Eligible(t.procs[j]) <==> Eligible(s.procs[j]))
    ensures Count(t, n) == Count(s, n)
  {
    if n > 0 { SameCount(s, t, n - 1); }
  }
}
