/** Pipes (pipe.c): a ring of 512 bytes between writers and readers, with 32-bit counters that wrap.
    A stretch of code that runs under the pipe's lock is one step. */
module Pipe {

  type Byte = b: int | 0 <= b < 256

  const PIPESIZE: nat := 512
  const UINT_LIMIT: nat := 0x1_0000_0000

  /** All bytes ever put in and taken out, and which ends are open. */
  datatype Channel = Channel(input: seq<Byte>, output: seq<Byte>, readopen: bool, writeopen: bool) {
    /** What has been taken out is the first part of what was put in, and at most 512 bytes are under way. */
    ghost predicate Valid() {
      output <= input && |input| - |output| <= PIPESIZE
    }

    function InFlight(): int { |input| - |output| }
  }

  /** How a stretch under the lock ends: the call returns n, it returns -1, or the process sleeps. */
  datatype Ending = Done | Failed | Asleep

  function Min(a: int, b: int): int { if a < b then a else b }

  /** How far pipewrite gets that has i bytes behind it: until all is in or the ring is full. */
  function PutUpTo(c: Channel, len: nat, i: nat): (j: int)
    requires i <= len
  {
    Min(len, i + PIPESIZE - c.InFlight())
  }

  function AfterPut(c: Channel, addr: seq<Byte>, i: nat): (d: Channel)
    requires c.Valid() && i <= |addr|
  {
    c.(input := c.input + addr[i..PutUpTo(c, |addr|, i)])
  }

  function PutEnding(c: Channel, len: nat, i: nat, killed: bool): Ending
    requires i <= len
  {
    if PutUpTo(c, len, i) == len then Done else if !c.readopen || killed then Failed else Asleep
  }

  function AfterTake(c: Channel, n: nat): (d: Channel)
    requires c.Valid()
  {
    c.(output := c.input[..|c.output| + Min(n, c.InFlight())])
  }

  function TakeEnding(c: Channel, killed: bool): Ending {
    if c.InFlight() > 0 || !c.writeopen then Done else if killed then Failed else Asleep
  }

  /** What pipewrite puts in: bytes of addr from the i-th on, and all of them unless the ring is full. */
  lemma PutMeans(c: Channel, addr: seq<Byte>, i: nat)
    requires c.Valid() && i <= |addr|
    ensures var d, j := AfterPut(c, addr, i), PutUpTo(c, |addr|, i);
      && i <= j <= |addr| && d.Valid() && d.input == c.input + addr[i..j] && d.output == c.output
      && (j < |addr| ==> |d.input| == |d.output| + PIPESIZE) && d.readopen == c.readopen && d.writeopen == c.writeopen
  {}

  /** What piperead takes out: the next n bytes under way, or all there are. */
  lemma TakeMeans(c: Channel, n: nat)
    requires c.Valid()
    ensures var d := AfterTake(c, n);
      && d.Valid() && d.input == c.input && |d.output| - |c.output| == (if n < c.InFlight() then n else c.InFlight())
      && d.output == c.output + c.input[|c.output|..][..|d.output| - |c.output|]
      && d.readopen == c.readopen && d.writeopen == c.writeopen
  {}

  class Ring {
    const data: array<Byte>
    var nread: nat               // uint
    var nwrite: nat              // uint
    var readopen: bool
    var writeopen: bool
    ghost var input: seq<Byte>
    ghost var output: seq<Byte>

    ghost function Abstract(): Channel
      reads this
    {
      Channel(input, output, readopen, writeopen)
    }

    /** The ring holds what is under way, and the counters count modulo 2^32. */
    ghost predicate Valid()
      reads this, data
    {
      && data.Length == PIPESIZE && Abstract().Valid()
      && nread == |output| % UINT_LIMIT && nwrite == |input| % UINT_LIMIT
      && forall k :: |output| <= k < |input| ==> data[k % PIPESIZE] == input[k]
    }

    constructor ()
      ensures Valid() && Abstract() == Channel([], [], true, true) && fresh(data)
    {
      data := new Byte[PIPESIZE];
      nread, nwrite, readopen, writeopen := 0, 0, true, true;
      input, output := [], [];
    }

    /** pipewrite from the i-th byte on, until it returns or sleeps: bytes i to j go in, in order, and it
        stops before the end only when the ring is full. `wake` says whether it called wakeup(&p->nread). */
    method Write(addr: seq<Byte>, i: nat, killed: bool) returns (j: nat, e: Ending, wake: bool)
      requires Valid() && i <= |addr|
      modifies this`nwrite, this`input, data
      ensures Valid() && i <= j <= |addr| && input == old(input) + addr[i..j]
      ensures j < |addr| ==> |input| == |output| + PIPESIZE
      ensures e.Done? <==> j == |addr|
      ensures e.Failed? <==> j < |addr| && (!readopen || killed)
      ensures wake == !e.Failed?
      ensures Abstract() == AfterPut(old(Abstract()), addr, i) && e == PutEnding(old(Abstract()), |addr|, i, killed)
    {
      j := i;
      while j < |addr|
        invariant i <= j <= |addr| && Valid() && |input| == |old(input)| + j - i
        invariant input == old(input) + addr[i..j]
      {
        if nwrite == (nread + PIPESIZE) % UINT_LIMIT {
          Full(|output|, |input|);
          if !readopen || killed {
            return j, Failed, false;
          }
          return j, Asleep, true;
        }
        NotFull(|output|, |input|);
        PutByte(addr[j]);
        j := j + 1;
      }
      return j, Done, true;
    }

    /** p->data[p->nwrite++ % PIPESIZE] = b */
    method PutByte(b: Byte)
      requires Valid() && |input| - |output| < PIPESIZE
      modifies this`nwrite, this`input, data
      ensures Valid() && input == old(input) + [b]
    {
      WrapIndex(|input|);
      forall k | |output| <= k < |input| ensures k % PIPESIZE != |input| % PIPESIZE { Apart(k, |input|); }
      data[nwrite % PIPESIZE] := b;
      nwrite := (nwrite + 1) % UINT_LIMIT;
      input := input + [b];
    }

    /** piperead until it returns or sleeps: it returns the next bytes under way, n of them or all there
        are, so that it returns none, for n > 0, only from an empty pipe that nobody will write to. When it
        returns it has called wakeup(&p->nwrite). */
    method Read(n: nat, killed: bool) returns (bytes: seq<Byte>, e: Ending)
      requires Valid()
      modifies this`nread, this`output
      ensures Valid() && output == old(output) + bytes
      ensures e.Done? <==> |input| > |old(output)| || !writeopen
      ensures e.Failed? <==> input == old(output) && writeopen && killed
      ensures e.Done? ==> |bytes| == (if n < |input| - |old(output)| then n else |input| - |old(output)|)
      ensures bytes == input[|old(output)|..][..|bytes|] && (!e.Done? ==> bytes == [])
      ensures e.Done? && bytes == [] && n > 0 ==> input == old(output) && !writeopen
      ensures e == TakeEnding(old(Abstract()), killed)
      ensures Abstract() == if e.Done? then AfterTake(old(Abstract()), n) else old(Abstract())
    {
      Empty(|output|, |input|);
      bytes := [];
      if nread == nwrite && writeopen {
        if killed {
          return bytes, Failed;
        }
        return bytes, Asleep;
      }
      while |bytes| < n
        invariant |bytes| <= n && Valid() && output == old(output) + bytes
        decreases n - |bytes|
      {
        Empty(|output|, |input|);
        if nread == nwrite { break; }
        WrapIndex(|output|);
        bytes := bytes + [data[nread % PIPESIZE]];
        output := output + [input[|output|]];
        nread := (nread + 1) % UINT_LIMIT;
      }
      e := Done;
      Stretch(old(output), bytes, input);
    }

    /** pipeclose; it wakes whoever waits for the end that is closed. The page is freed when both ends
        are closed. */
    method Close(writable: bool) returns (free: bool)
      requires Valid()
      modifies this`readopen, this`writeopen
      ensures Valid() && free == (!readopen && !writeopen)
      ensures Abstract() == if writable then old(Abstract()).(writeopen := false)
        else old(Abstract()).(readopen := false)
    {
      if writable { writeopen := false; } else { readopen := false; }
      free := !readopen && !writeopen;
    }
  }

  lemma Stretch(a: seq<Byte>, b: seq<Byte>, input: seq<Byte>)
    requires a + b <= input
    ensures input[|a|..][..|b|] == b
  {}

  // ----- counters -----

  /** 512 divides 2^32, so that the index survives the wrap-around. */
  lemma WrapIndex(a: nat)
    ensures a % UINT_LIMIT % PIPESIZE == a % PIPESIZE
    ensures (a % UINT_LIMIT + 1) % UINT_LIMIT == (a + 1) % UINT_LIMIT
  {}

  lemma Full(r: nat, w: nat)
    requires r <= w <= r + PIPESIZE
    ensures w % UINT_LIMIT == (r % UINT_LIMIT + PIPESIZE) % UINT_LIMIT <==> w == r + PIPESIZE
  {}

  lemma NotFull(r: nat, w: nat)
    requires r <= w <= r + PIPESIZE
    ensures w % UINT_LIMIT != (r % UINT_LIMIT + PIPESIZE) % UINT_LIMIT ==> w < r + PIPESIZE
  {
    Full(r, w);
  }

  lemma Empty(r: nat, w: nat)
    requires r <= w <= r + PIPESIZE
    ensures w % UINT_LIMIT == r % UINT_LIMIT <==> w == r
  {}

  lemma Apart(k: nat, w: nat)
    requires k < w < k + PIPESIZE
    ensures k % PIPESIZE != w % PIPESIZE
  {}

  // ----- readers and writers -----

  /** What a process is doing: nothing here, or inside piperead or pipewrite, asleep or about to go on. */
  datatype Task = Idle | Reading(n: nat, asleep: bool) | Writing(addr: seq<Byte>, i: nat, asleep: bool)

  /** Who put in each byte of the input and took out each byte of the output, and all that each process has
      been asked to write, are history. */
  datatype Sys = Sys(c: Channel, tasks: seq<Task>, putBy: seq<nat>, takenBy: seq<nat>, asked: seq<seq<Byte>>)

  datatype Event = StartWrite(p: nat, addr: seq<Byte>) | StartRead(p: nat, n: nat) | Resume(p: nat) | CloseRead
    | CloseWrite

  ghost predicate NoReader(tasks: seq<Task>) {
    forall p :: 0 <= p < |tasks| ==> !tasks[p].Reading?
  }

  ghost predicate NoWriter(tasks: seq<Task>) {
    forall p :: 0 <= p < |tasks| ==> !tasks[p].Writing?
  }

  /** A process reads or writes only while it holds the end open, so no end is closed under it. */
  ghost predicate Enabled(s: Sys, e: Event) {
    match e
    case StartWrite(p, addr) => p < |s.tasks| && s.tasks[p].Idle? && s.c.writeopen
    case StartRead(p, n) => p < |s.tasks| && s.tasks[p].Idle? && s.c.readopen
    case Resume(p) => p < |s.tasks| && !s.tasks[p].Idle? && !s.tasks[p].asleep
    case CloseRead => NoReader(s.tasks)
    case CloseWrite => NoWriter(s.tasks)
  }

  function Woken(t: Task, wake: bool): (u: Task) {
    match t
    case Idle => t
    case Reading(n, asleep) => Reading(n, asleep && !wake)
    case Writing(addr, i, asleep) => Writing(addr, i, asleep && !wake)
  }

  /** wakeup(&p->nread). */
  function WakeReaders(tasks: seq<Task>): (r: seq<Task>) {
    seq(|tasks|, p requires 0 <= p < |tasks| => Woken(tasks[p], tasks[p].Reading?))
  }

  /** wakeup(&p->nwrite). */
  function WakeWriters(tasks: seq<Task>): (r: seq<Task>) {
    seq(|tasks|, p requires 0 <= p < |tasks| => Woken(tasks[p], tasks[p].Writing?))
  }

  /** pipewrite by process p, from byte i on. Nobody is killed. */
  function WriteStep(s: Sys, p: nat, addr: seq<Byte>, i: nat): (t: Sys)
    requires s.c.Valid() && p < |s.tasks| && i <= |addr|
  {
    var c := AfterPut(s.c, addr, i);
    var tasks :=
      match PutEnding(s.c, |addr|, i, false)
      case Done => WakeReaders(s.tasks[p := Idle])
      case Failed => s.tasks[p := Idle]
      case Asleep => WakeReaders(s.tasks)[p := Writing(addr, PutUpTo(s.c, |addr|, i), true)];
    s.(c := c, tasks := tasks, putBy := s.putBy + seq(|c.input| - |s.c.input|, _ => p))
  }

  /** piperead by process p. */
  function ReadStep(s: Sys, p: nat, n: nat): (t: Sys)
    requires s.c.Valid() && p < |s.tasks|
  {
    match TakeEnding(s.c, false)
    case Done =>
      var c := AfterTake(s.c, n);
      s.(c := c, tasks := WakeWriters(s.tasks[p := Idle]),
        takenBy := s.takenBy + seq(|c.output| - |s.c.output|, _ => p))
    case Failed => s
    case Asleep => s.(tasks := s.tasks[p := Reading(n, true)])
  }

  ghost function Step(s: Sys, e: Event): (t: Sys)
    requires Inv(s) && Enabled(s, e)
  {
    match e
    case StartWrite(p, addr) => WriteStep(s.(asked := s.asked[p := s.asked[p] + addr]), p, addr, 0)
    case StartRead(p, n) => ReadStep(s, p, n)
    case Resume(p) => (
      match s.tasks[p]
      case Reading(n, _) => ReadStep(s, p, n)
      case Writing(addr, i, _) => assert TaskOk(s.c, s.tasks[p]); WriteStep(s, p, addr, i)
      case Idle => s)
    case CloseRead => s.(c := s.c.(readopen := false), tasks := WakeWriters(s.tasks))
    case CloseWrite => s.(c := s.c.(writeopen := false), tasks := WakeReaders(s.tasks))
  }

  /** What holds whenever the lock is free: bytes come out in the order they went in, at most 512 are
      under way, no reader sleeps on a pipe with something to read or nobody to write, and no writer
      sleeps on a pipe with room or nobody to read. */
  ghost predicate Core(s: Sys) {
    && s.c.Valid()
    && (!s.c.readopen ==> NoReader(s.tasks)) && (!s.c.writeopen ==> NoWriter(s.tasks))
    && (forall p :: 0 <= p < |s.tasks| ==> TaskOk(s.c, s.tasks[p]))
    && |s.putBy| == |s.c.input| && |s.takenBy| == |s.c.output| && |s.asked| == |s.tasks|
  }

  /** And every writer's bytes have gone in in its order. */
  ghost predicate Inv(s: Sys) {
    Core(s) && forall p :: 0 <= p < |s.tasks| ==> SentOk(s, p)
  }

  /** The bytes that process p has put in or taken out, given who did it. */
  function Share(bytes: seq<Byte>, who: seq<nat>, p: nat): (r: seq<Byte>)
    requires |who| == |bytes|
  {
    if |bytes| == 0 then []
    else
      var n := |bytes| - 1;
      Share(bytes[..n], who[..n], p) + if who[n] == p then [bytes[n]] else []
  }

  /** What a process has not put in yet of what it is writing. */
  function Left(t: Task): (r: seq<Byte>) {
    if t.Writing? && t.i <= |t.addr| then t.addr[t.i..] else []
  }

  /** What process p has put in is what it was asked to write, in its order, up to what it has left. Once
      the read end is closed and the ring is full, what is left may never go in. */
  ghost predicate SentOk(s: Sys, p: nat)
    requires p < |s.tasks| == |s.asked| && |s.putBy| == |s.c.input|
  {
    && Share(s.c.input, s.putBy, p) <= s.asked[p]
    && (s.c.readopen || s.c.InFlight() < PIPESIZE ==> Share(s.c.input, s.putBy, p) + Left(s.tasks[p]) == s.asked[p])
  }

  predicate TaskOk(c: Channel, t: Task) {
    && (t.Writing? ==> t.i < |t.addr|)
    && (t.Reading? && t.asleep ==> c.InFlight() == 0 && c.writeopen)
    && (t.Writing? && t.asleep ==> c.InFlight() == PIPESIZE && c.readopen)
  }

  lemma {:induction false} ShareMore(bytes: seq<Byte>, who: seq<nat>, more: seq<Byte>, p: nat, q: nat)
    requires |who| == |bytes|
    ensures Share(bytes + more, who + seq(|more|, _ => p), q) == Share(bytes, who, q) + if q == p then more else []
  {
    var all, whose := bytes + more, who + seq(|more|, _ => p);
    if |more| == 0 {
      assert all == bytes && whose == who;
    } else {
      var n := |more| - 1;
      ShareMore(bytes, who, more[..n], p, q);
      assert all[..|all| - 1] == bytes + more[..n] && whose[..|whose| - 1] == who + seq(n, _ => p);
      assert more == more[..n] + [more[n]];
    }
  }

  /** Process p is in pipewrite with `addr`, of which i bytes have gone in. */
  ghost predicate Sending(s: Sys, p: nat, addr: seq<Byte>, i: nat)
    requires p < |s.tasks| == |s.asked| && |s.putBy| == |s.c.input| && i <= |addr|
  {
    && Share(s.c.input, s.putBy, p) <= s.asked[p]
    && (s.c.readopen || s.c.InFlight() < PIPESIZE ==> Share(s.c.input, s.putBy, p) + addr[i..] == s.asked[p])
  }

  lemma WriteCore(s: Sys, p: nat, addr: seq<Byte>, i: nat)
    requires Core(s) && p < |s.tasks| && i <= |addr| && s.c.writeopen
    requires s.tasks[p].Idle? || (s.tasks[p].Writing? && !s.tasks[p].asleep)
    ensures Core(WriteStep(s, p, addr, i))
    ensures WriteStep(s, p, addr, i).c.output == s.c.output && s.c.input <= WriteStep(s, p, addr, i).c.input
  {
    PutMeans(s.c, addr, i);
  }

  lemma WriteMeans(s: Sys, p: nat, addr: seq<Byte>, i: nat, j: nat)
    requires Core(s) && p < |s.tasks| && i <= |addr| && j == PutUpTo(s.c, |addr|, i)
    ensures var t := WriteStep(s, p, addr, i);
      && i <= j <= |addr| && |t.tasks| == |s.tasks| && t.asked == s.asked && t.c.readopen == s.c.readopen
      && t.c.input == s.c.input + addr[i..j] && t.putBy == s.putBy + seq(|addr[i..j]|, _ => p)
      && s.c.InFlight() <= t.c.InFlight() && (s.c.InFlight() == PIPESIZE ==> addr[i..j] == [])
      && (forall q :: 0 <= q < |s.tasks| && q != p ==> Left(t.tasks[q]) == Left(s.tasks[q]))
      && (t.c.readopen || t.c.InFlight() < PIPESIZE ==> Left(t.tasks[p]) == addr[j..])
  {
    PutMeans(s.c, addr, i);
  }

  lemma WriteSent(s: Sys, p: nat, addr: seq<Byte>, i: nat, q: nat)
    requires Core(s) && p < |s.tasks| && i <= |addr| && Sending(s, p, addr, i)
    requires q < |s.tasks| && (q != p ==> SentOk(s, q)) && Core(WriteStep(s, p, addr, i))
    ensures SentOk(WriteStep(s, p, addr, i), q)
  {
    var t, j := WriteStep(s, p, addr, i), PutUpTo(s.c, |addr|, i);
    WriteMeans(s, p, addr, i, j);
    ShareMore(s.c.input, s.putBy, addr[i..j], p, q);
    var before, after := Share(s.c.input, s.putBy, q), Share(t.c.input, t.putBy, q);
    hide Share, WriteStep, PutUpTo, Core, Left;
    if q == p {
      if s.c.readopen || s.c.InFlight() < PIPESIZE {
        Joined(before, addr, i, j, s.asked[p]);
      } else {
        assert after == before;
      }
    } else {
      assert after == before;
    }
  }

  lemma Joined(before: seq<Byte>, addr: seq<Byte>, i: nat, j: nat, asked: seq<Byte>)
    requires i <= j <= |addr| && before + addr[i..] == asked
    ensures before + addr[i..j] <= asked && before + addr[i..j] + addr[j..] == asked
  {
    assert addr[i..] == addr[i..j] + addr[j..];
  }

  lemma WriteKeeps(s: Sys, p: nat, addr: seq<Byte>, i: nat)
    requires Core(s) && p < |s.tasks| && i <= |addr| && s.c.writeopen && Sending(s, p, addr, i)
    requires s.tasks[p].Idle? || (s.tasks[p].Writing? && !s.tasks[p].asleep)
    requires forall q :: 0 <= q < |s.tasks| && q != p ==> SentOk(s, q)
    ensures Inv(WriteStep(s, p, addr, i))
    ensures WriteStep(s, p, addr, i).c.output == s.c.output && s.c.input <= WriteStep(s, p, addr, i).c.input
  {
    WriteCore(s, p, addr, i);
    forall q | 0 <= q < |s.tasks| ensures SentOk(WriteStep(s, p, addr, i), q) { WriteSent(s, p, addr, i, q); }
    hide Core, SentOk, PutEnding, AfterPut;
  }

  lemma ReadKeeps(s: Sys, p: nat, n: nat)
    requires Inv(s) && p < |s.tasks| && s.c.readopen
    requires s.tasks[p].Idle? || (s.tasks[p].Reading? && !s.tasks[p].asleep)
    ensures Inv(ReadStep(s, p, n))
    ensures ReadStep(s, p, n).c.input == s.c.input && s.c.output <= ReadStep(s, p, n).c.output
  {
    hide Share;
    TakeMeans(s.c, n);
    var t := ReadStep(s, p, n);
    forall q | 0 <= q < |t.tasks| ensures SentOk(t, q) { assert SentOk(s, q); }
  }

  lemma CloseKeeps(s: Sys, e: Event)
    requires Inv(s) && Enabled(s, e) && (e.CloseRead? || e.CloseWrite?)
    ensures Inv(Step(s, e))
  {
    hide Share;
    var t := Step(s, e);
    forall q | 0 <= q < |t.tasks| ensures SentOk(t, q) { assert SentOk(s, q); }
  }

  lemma StepKeeps(s: Sys, e: Event)
    requires Inv(s) && Enabled(s, e)
    ensures Inv(Step(s, e))
    ensures s.c.input <= Step(s, e).c.input && s.c.output <= Step(s, e).c.output
  {
    match e
    case StartWrite(p, addr) => StartKeeps(s, p, addr);
    case StartRead(p, n) => ReadKeeps(s, p, n);
    case Resume(p) =>
      match s.tasks[p] {
        case Reading(n, _) => ReadKeeps(s, p, n);
        case Writing(addr, i, _) => assert SentOk(s, p) && TaskOk(s.c, s.tasks[p]); WriteKeeps(s, p, addr, i);
        case Idle =>
      }
    case CloseRead => CloseKeeps(s, e);
    case CloseWrite => CloseKeeps(s, e);
  }

  lemma StartKeeps(s: Sys, p: nat, addr: seq<Byte>)
    requires Inv(s) && Enabled(s, StartWrite(p, addr))
    ensures Inv(Step(s, StartWrite(p, addr)))
    ensures s.c.input <= Step(s, StartWrite(p, addr)).c.input && s.c.output <= Step(s, StartWrite(p, addr)).c.output
  {
    hide Share;
    var u := s.(asked := s.asked[p := s.asked[p] + addr]);
    assert SentOk(s, p) && addr[0..] == addr;
    forall q | 0 <= q < |u.tasks| && q != p ensures SentOk(u, q) { assert SentOk(s, q); }
    WriteKeeps(u, p, addr, 0);
  }

  /** States reached by a run; an event that is not possible at its turn is skipped. */
  ghost function Run(n: nat, es: seq<Event>): (s: Sys)
    ensures Inv(s)
  {
    if |es| == 0 then Sys(Channel([], [], true, true), seq(n, _ => Idle), [], [], seq(n, _ => []))
    else
      var s := Run(n, es[..|es| - 1]);
      var e := es[|es| - 1];
      if Enabled(s, e) then (StepKeeps(s, e); Step(s, e)) else s
  }

  /** In every run, what each process has put in is what it was asked to write, in its order: all of it but
      what it is still writing, as long as somebody can read or the ring has not filled up. */
  lemma WritersInOrder(n: nat, es: seq<Event>, p: nat)
    requires p < |Run(n, es).tasks|
    ensures var s := Run(n, es);
      && |s.putBy| == |s.c.input| && |s.asked| == |s.tasks| && Share(s.c.input, s.putBy, p) <= s.asked[p]
      && (s.c.readopen || |s.c.input| < |s.c.output| + PIPESIZE ==>
            Share(s.c.input, s.putBy, p) + Left(s.tasks[p]) == s.asked[p])
  {
    assert SentOk(Run(n, es), p);
  }

  /** A read that returns in a run takes the next bytes under way, n or all there are; and it returns none,
      for n > 0, only when nothing is under way and nobody will write. */
  lemma ReadReturns(s: Sys, p: nat, n: nat)
    requires Inv(s) && p < |s.tasks| && TakeEnding(s.c, false).Done?
    ensures var t := ReadStep(s, p, n); var k := |t.c.output| - |s.c.output|;
      && t.tasks[p].Idle? && t.c.input == s.c.input
      && k == (if n < |s.c.input| - |s.c.output| then n else |s.c.input| - |s.c.output|)
      && t.c.output == s.c.output + s.c.input[|s.c.output|..][..k] && t.takenBy == s.takenBy + seq(k, _ => p)
      && (k == 0 && n > 0 ==> s.c.input == s.c.output && !s.c.writeopen)
  {
    TakeMeans(s.c, n);
  }

  /** In every run, whoever sleeps has reason to. */
  lemma SleepersHaveReason(n: nat, es: seq<Event>, p: nat)
    requires p < |Run(n, es).tasks| && !Run(n, es).tasks[p].Idle? && Run(n, es).tasks[p].asleep
    ensures var s := Run(n, es);
      if s.tasks[p].Reading? then s.c.input == s.c.output && s.c.writeopen
      else |s.c.input| == |s.c.output| + PIPESIZE && s.c.readopen
  {}
}
