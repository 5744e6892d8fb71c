/** lab2/kernel/proc.c: sleep, wakeup, yield, kill and the scheduler, as steps of
    any number of CPUs over a table of any number of processes.  Slots of the
    table are used again: fork takes an UNUSED one, and wait frees a ZOMBIE's. */
module Sched {

  datatype PState = UNUSED | SLEEPING | RUNNABLE | RUNNING | ZOMBIE

  /** Where a process is in the kernel. In Slept, Yielded and Exited it has
      switched to a scheduler; Slept remembers what it called sleep with. */
  datatype Pc =
    | Ready
    | Sleep0(chan: nat, lk: nat) | Sleep1(chan: nat, lk: nat) | Sleep2(chan: nat, lk: nat) | Sleep3(chan: nat, lk: nat)
    | Slept(chan: nat, lk: nat) | Woken(lk: nat) | Relock(lk: nat)
    | Yield1 | Yield2 | Yielded | Yield3
    | Wake(chan: nat, i: nat) | WakeHolding(chan: nat, i: nat)
    | Kill(i: nat) | KillHolding(i: nat)
    | Fork(i: nat) | ForkHolding(i: nat)
    | Reap(i: nat) | ReapHolding(i: nat)
    | Exit1 | Exit2 | Exited

  /** A CPU in scheduler's loop, or running a process. */
  datatype CpuPc = Scan(i: nat) | Holding(i: nat) | Running(i: nat) | Back(i: nat)

  /** lock is the CPU that holds p->lock, and on the one whose mycpu()->proc is
      p, or -1. */
  datatype Proc = Proc(state: PState, chan: nat, lock: int, on: int, pc: Pc)

  /** lks are the other spinlocks: the process that holds each, or -1. */
  datatype State = State(procs: seq<Proc>, cpus: seq<CpuPc>, lks: seq<int>)
  {
    function Cpu(c: nat, pc: CpuPc): State
      requires c < |cpus|
    {
      this.(cpus := cpus[c := pc])
    }

    function Set(p: nat, x: Proc): State
      requires p < |procs|
    {
      this.(procs := procs[p := x])
    }

    function Goto(p: nat, pc: Pc): State
      requires p < |procs|
    {
      Set(p, procs[p].(pc := pc))
    }

    function Lk(l: nat, owner: int): State
      requires l < |lks|
    {
      this.(lks := lks[l := owner])
    }
  }

  /** What a running process may do next. */
  datatype Action =
    | Continue
    | Acquire(l: nat) | Release(l: nat)
    | CallSleep(chan: nat, l: nat) | CallYield | CallWakeup(chan: nat) | CallKill(i: nat) | CallFork(i: nat) | CallReap(i: nat) | CallExit

  /** scheduler() on CPU c. */
  function Schedule(s: State, c: nat): State
    requires c < |s.cpus| && !s.cpus[c].Running?
  {
    match s.cpus[c]
    case Scan(i) =>
      if i >= |s.procs| then s.Cpu(c, Scan(0))
      else if s.procs[i].lock >= 0 then s
      else s.Set(i, s.procs[i].(lock := c)).Cpu(c, Holding(i))
    case Holding(i) =>
      if i >= |s.procs| then s
      else if s.procs[i].state == RUNNABLE then
        s.Set(i, s.procs[i].(state := RUNNING, on := c, pc := Resumed(s.procs[i].pc))).Cpu(c, Running(i))
      else s.Set(i, s.procs[i].(lock := -1)).Cpu(c, Scan(i + 1))
    case Back(i) => if i >= |s.procs| then s else s.Set(i, s.procs[i].(lock := -1)).Cpu(c, Scan(i + 1))
  }

  /** After swtch: back in sleep or in yield. */
  function Resumed(pc: Pc): Pc {
    match pc
    case Slept(_, lk) => Woken(lk)
    case Yielded => Yield3
    case _ => pc
  }

  /** A step of process p in ordinary code, holding no p->lock. */
  function Call(s: State, p: nat, a: Action): State
    requires p < |s.procs|
  {
    match a
    case Continue => s
    case Acquire(l) => if l < |s.lks| && s.lks[l] < 0 then s.Lk(l, p) else s
    case Release(l) => if l < |s.lks| && s.lks[l] == p then s.Lk(l, -1) else s
    case CallSleep(chan, l) => if l < |s.lks| && s.lks[l] == p then s.Goto(p, Sleep0(chan, l)) else s
    case CallYield => s.Goto(p, Yield1)
    case CallWakeup(chan) => s.Goto(p, Wake(chan, 0))
    case CallKill(i) => s.Goto(p, Kill(i))
    case CallFork(i) => s.Goto(p, Fork(i))
    case CallReap(i) => s.Goto(p, Reap(i))
    case CallExit => s.Goto(p, Exit1)
  }

  /** wait's look at a child: a ZOMBIE's slot is free again. */
  function Reaped(x: Proc): Proc {
    if x.state == ZOMBIE then x.(state := UNUSED, chan := 0, pc := Yielded, lock := -1) else x.(lock := -1)
  }

  /** A step of process p on CPU c, inside one of the functions it has called. */
  function Kernel(s: State, c: nat, p: nat): State
    requires c < |s.cpus| && p < |s.procs|
  {
    var me := s.procs[p];
    match me.pc
    case Sleep0(chan, lk) => if me.lock < 0 then s.Set(p, me.(lock := c, pc := Sleep1(chan, lk))) else s
    case Sleep1(chan, lk) => if lk < |s.lks| then s.Goto(p, Sleep2(chan, lk)).Lk(lk, -1) else s
    case Sleep2(chan, lk) => s.Set(p, me.(chan := chan, state := SLEEPING, pc := Sleep3(chan, lk)))
    case Sleep3(chan, lk) => s.Set(p, me.(on := -1, pc := Slept(chan, lk))).Cpu(c, Back(p))
    case Woken(lk) => s.Set(p, me.(chan := 0, lock := -1, pc := Relock(lk)))
    case Relock(lk) => if lk < |s.lks| && s.lks[lk] < 0 then s.Goto(p, Ready).Lk(lk, p) else s
    case Yield1 => if me.lock < 0 then s.Set(p, me.(lock := c, state := RUNNABLE, pc := Yield2)) else s
    case Yield2 => s.Set(p, me.(on := -1, pc := Yielded)).Cpu(c, Back(p))
    case Yield3 => s.Set(p, me.(lock := -1, pc := Ready))
    case Wake(chan, i) =>
      if i >= |s.procs| then s.Goto(p, Ready)
      else if i == p then s.Goto(p, Wake(chan, i + 1))
      else if s.procs[i].lock < 0 then s.Set(i, s.procs[i].(lock := c)).Goto(p, WakeHolding(chan, i))
      else s
    case WakeHolding(chan, i) =>
      if i >= |s.procs| || i == p then s
      else
        var x := s.procs[i];
        var woken := if x.state == SLEEPING && x.chan == chan then RUNNABLE else x.state;
        s.Set(i, x.(state := woken, lock := -1)).Goto(p, Wake(chan, i + 1))
    case Kill(i) =>
      if i >= |s.procs| || i == p then s.Goto(p, Ready)
      else if s.procs[i].lock < 0 then s.Set(i, s.procs[i].(lock := c)).Goto(p, KillHolding(i))
      else s
    case KillHolding(i) =>
      if i >= |s.procs| || i == p then s
      else
        var x := s.procs[i];
        s.Set(i, x.(state := if x.state == SLEEPING then RUNNABLE else x.state, lock := -1)).Goto(p, Ready)
    case Fork(i) =>
      if i >= |s.procs| || i == p then s.Goto(p, Ready)
      else if s.procs[i].lock < 0 then s.Set(i, s.procs[i].(lock := c)).Goto(p, ForkHolding(i))
      else s
    case ForkHolding(i) =>
      if i >= |s.procs| || i == p then s
      else
        var x := s.procs[i];
        var child := if x.state == UNUSED then x.(state := RUNNABLE, pc := Yielded, lock := -1) else x.(lock := -1);
        s.Set(i, child).Goto(p, Ready)
    case Reap(i) =>
      if i >= |s.procs| || i == p then s.Goto(p, Ready)
      else if s.procs[i].lock < 0 then s.Set(i, s.procs[i].(lock := c)).Goto(p, ReapHolding(i))
      else s
    case ReapHolding(i) =>
      if i >= |s.procs| || i == p then s else s.Set(i, Reaped(s.procs[i])).Goto(p, Ready)
    case Exit1 => if me.lock < 0 then s.Set(p, me.(lock := c, state := ZOMBIE, pc := Exit2)) else s
    case Exit2 => s.Set(p, me.(on := -1, pc := Exited)).Cpu(c, Back(p))
    case _ => s
  }

  /** One step of CPU c. */
  function Step(s: State, c: nat, a: Action): (t: State)
    ensures |t.procs| == |s.procs| && |t.cpus| == |s.cpus| && |t.lks| == |s.lks|
  {
    if c >= |s.cpus| then s
    else match s.cpus[c]
      case Running(p) =>
        if p >= |s.procs| then s else if s.procs[p].pc == Ready then Call(s, p, a) else Kernel(s, c, p)
      case _ => Schedule(s, c)
  }

  function Run(s: State, run: seq<(nat, Action)>): (t: State)
    ensures |t.procs| == |s.procs| && |t.cpus| == |s.cpus| && |t.lks| == |s.lks|
  {
    if run == [] then s else var last := run[|run| - 1]; Step(Run(s, run[..|run| - 1]), last.0, last.1)
  }

  /** Every CPU in its scheduler, every process not there yet or about to run. */
  ghost predicate Boot(s: State) {
    && (forall c :: 0 <= c < |s.cpus| ==> s.cpus[c] == Scan(0))
    && (forall l :: 0 <= l < |s.lks| ==> s.lks[l] < 0)
    && forall p :: 0 <= p < |s.procs| ==>
         s.procs[p].lock == s.procs[p].on == -1 && s.procs[p].pc == Yielded
         && (s.procs[p].state == UNUSED || s.procs[p].state == RUNNABLE)
  }

  /** The kernel code in which a process holds its own p->lock. */
  predicate HoldsOwn(pc: Pc) {
    pc.Sleep1? || pc.Sleep2? || pc.Sleep3? || pc.Woken? || pc.Yield2? || pc.Yield3? || pc.Exit2?
  }

  predicate HoldsOther(pc: Pc) {
    pc.WakeHolding? || pc.KillHolding? || pc.ForkHolding? || pc.ReapHolding?
  }

  predicate OffCpu(pc: Pc) {
    pc.Slept? || pc.Yielded? || pc.Exited?
  }

  /** CPU c holds p->lock of process i. */
  predicate Holds(s: State, c: nat, i: nat)
    requires c < |s.cpus|
  {
    match s.cpus[c]
    case Scan(_) => false
    case Holding(j) => j == i
    case Back(j) => j == i
    case Running(p) =>
      p < |s.procs| && if p == i then HoldsOwn(s.procs[p].pc) else HoldsOther(s.procs[p].pc) && s.procs[p].pc.i == i
  }

  /** The state that goes with where the process is. */
  predicate PlaceOk(x: Proc) {
    match x.pc
    case Sleep3(chan, _) => x.state == SLEEPING && x.chan == chan
    case Slept(chan, _) => x.state == RUNNABLE || (x.state == SLEEPING && x.chan == chan)
    case Yield2 => x.state == RUNNABLE
    case Yielded => x.state == RUNNABLE || x.state == UNUSED
    case Exit2 => x.state == ZOMBIE
    case Exited => x.state == ZOMBIE
    case _ => x.state == RUNNING
  }

  ghost predicate CpuOk(s: State, c: nat)
    requires c < |s.cpus|
  {
    match s.cpus[c]
    case Scan(_) => true
    case Holding(i) => i < |s.procs| && s.procs[i].lock == c
    case Back(i) => i < |s.procs| && s.procs[i].lock == c && OffCpu(s.procs[i].pc)
    case Running(p) =>
      && p < |s.procs| && s.procs[p].on == c && !OffCpu(s.procs[p].pc)
      && (HoldsOwn(s.procs[p].pc) ==> s.procs[p].lock == c)
      && (HoldsOther(s.procs[p].pc) ==>
            s.procs[p].pc.i < |s.procs| && s.procs[p].pc.i != p && s.procs[s.procs[p].pc.i].lock == c)
  }

  ghost predicate ProcOk(s: State, p: nat)
    requires p < |s.procs|
  {
    var x := s.procs[p];
    && -1 <= x.on < |s.cpus| && -1 <= x.lock < |s.cpus| && (x.on == -1 <==> OffCpu(x.pc)) && PlaceOk(x)
    && (x.on >= 0 ==> s.cpus[x.on] == Running(p))
    && (x.lock >= 0 ==> Holds(s, x.lock, p))
  }

  /** A process that is about to release lk has it. */
  ghost predicate LkOk(s: State, p: nat)
    requires p < |s.procs|
  {
    var pc := s.procs[p].pc;
    pc.Sleep0? || pc.Sleep1? ==> pc.lk < |s.lks| && s.lks[pc.lk] == p
  }

  /** The process has let go of lk in sleep(chan, lk) and nobody has woken it. */
  predicate Committed(x: Proc, chan: nat, lk: nat) {
    x.pc == Sleep2(chan, lk) || x.pc == Sleep3(chan, lk) || (x.pc == Slept(chan, lk) && x.state == SLEEPING)
  }

  /** wakeup(chan) under lk: no process that it has passed sleeps on chan. */
  ghost predicate WakeOk(s: State, q: nat, lk: nat)
    requires q < |s.procs| && lk < |s.lks|
  {
    var pc := s.procs[q].pc;
    s.lks[lk] == q && (pc.Wake? || pc.WakeHolding?) ==>
      forall p :: 0 <= p < pc.i && p < |s.procs| && p != q ==> !Committed(s.procs[p], pc.chan, lk)
  }

  ghost predicate Inv(s: State) {
    && (forall c: nat :: c < |s.cpus| ==> CpuOk(s, c))
    && (forall p: nat :: p < |s.procs| ==> ProcOk(s, p) && LkOk(s, p))
    && (forall q: nat, lk: nat :: q < |s.procs| && lk < |s.lks| ==> WakeOk(s, q, lk))
  }

  lemma BootInv(s: State)
    requires Boot(s)
    ensures Inv(s)
  {
  }

  /** A process whose p->lock another one holds is not in a place where it
      holds that lock itself. */
  lemma LockedByOther(s: State, c: nat, p: nat)
    requires Inv(s) && c < |s.cpus| && s.cpus[c] == Running(p) && p < |s.procs| && HoldsOther(s.procs[p].pc)
    ensures var i := s.procs[p].pc.i;
            i < |s.procs| && i != p && s.procs[i].lock == c && !HoldsOwn(s.procs[i].pc) && PlaceOk(s.procs[i])
  {
    assert CpuOk(s, c) && ProcOk(s, s.procs[p].pc.i);
    var x := s.procs[s.procs[p].pc.i];
    assert x.on >= 0 ==> CpuOk(s, x.on);
  }

  lemma ScanInv(s: State, c: nat)
    requires Inv(s) && c < |s.cpus| && s.cpus[c].Scan?
    ensures Inv(Schedule(s, c))
  {
    var t := Schedule(s, c);
    assert CpuOk(s, c);
    forall d: nat | d < |s.cpus| ensures CpuOk(t, d) {
      assert CpuOk(s, d);
    }
    forall q: nat | q < |s.procs| ensures ProcOk(t, q) && LkOk(t, q) {
      assert ProcOk(s, q) && LkOk(s, q);
    }
    forall q: nat, l: nat | q < |s.procs| && l < |s.lks| ensures WakeOk(t, q, l) {
      assert WakeOk(s, q, l);
    }
  }

  /** scheduler switches to the process it has found. */
  lemma DispatchInv(s: State, c: nat, i: nat)
    requires Inv(s) && c < |s.cpus| && s.cpus[c] == Holding(i) && i < |s.procs| && s.procs[i].state == RUNNABLE
    ensures Inv(Schedule(s, c))
  {
    var t := Schedule(s, c);
    assert CpuOk(s, c) && ProcOk(s, i);
    assert s.procs[i].on >= 0 ==> CpuOk(s, s.procs[i].on);
    assert s.procs[i].pc.Slept? || s.procs[i].pc.Yielded?;
    forall d: nat | d < |s.cpus| ensures CpuOk(t, d) {
      assert CpuOk(s, d);
    }
    forall q: nat | q < |s.procs| ensures ProcOk(t, q) && LkOk(t, q) {
      assert ProcOk(s, q) && LkOk(s, q);
    }
    forall q: nat, l: nat | q < |s.procs| && l < |s.lks| ensures WakeOk(t, q, l) {
      assert WakeOk(s, q, l);
    }
  }

  lemma HoldingInv(s: State, c: nat, i: nat)
    requires Inv(s) && c < |s.cpus| && s.cpus[c] == Holding(i) && i < |s.procs| && s.procs[i].state != RUNNABLE
    ensures Inv(Schedule(s, c))
  {
    var t := Schedule(s, c);
    assert CpuOk(s, c) && ProcOk(s, i);
    forall d: nat | d < |s.cpus| ensures CpuOk(t, d) {
      assert CpuOk(s, d);
    }
    forall q: nat | q < |s.procs| ensures ProcOk(t, q) && LkOk(t, q) {
      assert ProcOk(s, q) && LkOk(s, q);
    }
    forall q: nat, l: nat | q < |s.procs| && l < |s.lks| ensures WakeOk(t, q, l) {
      assert WakeOk(s, q, l);
    }
  }

  lemma BackInv(s: State, c: nat)
    requires Inv(s) && c < |s.cpus| && s.cpus[c].Back?
    ensures Inv(Schedule(s, c))
  {
    var t := Schedule(s, c);
    assert CpuOk(s, c);
    forall d: nat | d < |s.cpus| ensures CpuOk(t, d) {
      assert CpuOk(s, d);
    }
    forall q: nat | q < |s.procs| ensures ProcOk(t, q) && LkOk(t, q) {
      assert ProcOk(s, q) && LkOk(s, q);
    }
    forall q: nat, l: nat | q < |s.procs| && l < |s.lks| ensures WakeOk(t, q, l) {
      assert WakeOk(s, q, l);
    }
  }

  /** Holding no p->lock, and on a CPU. */
  predicate Plain(pc: Pc) {
    !HoldsOwn(pc) && !HoldsOther(pc) && !OffCpu(pc)
  }

  lemma PlainInv(s: State, c: nat, p: nat, pc: Pc)
    requires Inv(s) && c < |s.cpus| && s.cpus[c] == Running(p) && p < |s.procs| && Plain(s.procs[p].pc) && Plain(pc)
    requires pc.Sleep0? ==> pc.lk < |s.lks| && s.lks[pc.lk] == p
    requires forall l: nat :: l < |s.lks| ==> WakeOk(s.Goto(p, pc), p, l)
    ensures Inv(s.Goto(p, pc))
  {
    var t := s.Goto(p, pc);
    assert CpuOk(s, c) && ProcOk(s, p) && LkOk(s, p);
    forall d: nat | d < |s.cpus| ensures CpuOk(t, d) {
      assert CpuOk(s, d);
    }
    forall q: nat | q < |s.procs| ensures ProcOk(t, q) && LkOk(t, q) {
      assert ProcOk(s, q) && LkOk(s, q);
    }
    forall q: nat, l: nat | q < |s.procs| && l < |s.lks| ensures WakeOk(t, q, l) {
      assert WakeOk(s, q, l);
    }
  }

  lemma LkInv(s: State, c: nat, p: nat, l: nat, owner: int)
    requires Inv(s) && c < |s.cpus| && s.cpus[c] == Running(p) && p < |s.procs| && s.procs[p].pc == Ready
    requires l < |s.lks| && (s.lks[l] < 0 || s.lks[l] == p) && (owner < 0 || owner == p)
    ensures Inv(s.Lk(l, owner))
  {
    var t := s.Lk(l, owner);
    assert CpuOk(s, c) && ProcOk(s, p) && LkOk(s, p);
    forall d: nat | d < |s.cpus| ensures CpuOk(t, d) {
      assert CpuOk(s, d);
    }
    forall q: nat | q < |s.procs| ensures ProcOk(t, q) && LkOk(t, q) {
      assert ProcOk(s, q) && LkOk(s, q);
    }
    forall q: nat, l: nat | q < |s.procs| && l < |s.lks| ensures WakeOk(t, q, l) {
      assert WakeOk(s, q, l);
    }
  }

  lemma CallInv(s: State, c: nat, p: nat, a: Action)
    requires Inv(s) && c < |s.cpus| && s.cpus[c] == Running(p) && p < |s.procs| && s.procs[p].pc == Ready
    ensures Inv(Call(s, p, a))
  {
    match a
    case Continue =>
    case Acquire(l) =>
      if l < |s.lks| && s.lks[l] < 0 {
        LkInv(s, c, p, l, p);
      }
    case Release(l) =>
      if l < |s.lks| && s.lks[l] == p {
        LkInv(s, c, p, l, -1);
      }
    case CallSleep(chan, l) =>
      if l < |s.lks| && s.lks[l] == p {
        PlainInv(s, c, p, Sleep0(chan, l));
      }
    case CallYield => PlainInv(s, c, p, Yield1);
    case CallWakeup(chan) => PlainInv(s, c, p, Wake(chan, 0));
    case CallKill(i) => PlainInv(s, c, p, Kill(i));
    case CallFork(i) => PlainInv(s, c, p, Fork(i));
    case CallReap(i) => PlainInv(s, c, p, Reap(i));
    case CallExit => PlainInv(s, c, p, Exit1);
  }

  lemma SleepInv(s: State, c: nat, p: nat)
    requires Inv(s) && c < |s.cpus| && s.cpus[c] == Running(p) && p < |s.procs|
    requires var pc := s.procs[p].pc; pc.Sleep0? || pc.Sleep1? || pc.Sleep2?
    ensures Inv(Kernel(s, c, p))
  {
    var t := Kernel(s, c, p);
    assert CpuOk(s, c) && ProcOk(s, p) && LkOk(s, p);
    forall d: nat | d < |s.cpus| ensures CpuOk(t, d) {
      assert CpuOk(s, d);
    }
    forall q: nat | q < |s.procs| ensures ProcOk(t, q) && LkOk(t, q) {
      assert ProcOk(s, q) && LkOk(s, q);
    }
    forall q: nat, l: nat | q < |s.procs| && l < |s.lks| ensures WakeOk(t, q, l) {
      assert WakeOk(s, q, l);
    }
  }

  /** sched: the CPU goes back to its scheduler, which holds p->lock. */
  lemma SwitchInv(s: State, c: nat, p: nat, pc: Pc)
    requires Inv(s) && c < |s.cpus| && s.cpus[c] == Running(p) && p < |s.procs|
    requires HoldsOwn(s.procs[p].pc) && OffCpu(pc) && PlaceOk(s.procs[p].(pc := pc))
    requires forall chan, lk :: Committed(s.procs[p].(pc := pc), chan, lk) ==> Committed(s.procs[p], chan, lk)
    ensures Inv(s.Set(p, s.procs[p].(on := -1, pc := pc)).Cpu(c, Back(p)))
  {
    var t := s.Set(p, s.procs[p].(on := -1, pc := pc)).Cpu(c, Back(p));
    assert CpuOk(s, c) && ProcOk(s, p);
    forall d: nat | d < |s.cpus| ensures CpuOk(t, d) {
      assert CpuOk(s, d);
    }
    forall q: nat | q < |s.procs| ensures ProcOk(t, q) && LkOk(t, q) {
      assert ProcOk(s, q) && LkOk(s, q);
    }
    forall q: nat, l: nat | q < |s.procs| && l < |s.lks| ensures WakeOk(t, q, l) {
      assert WakeOk(s, q, l);
    }
  }

  lemma SchedInv(s: State, c: nat, p: nat)
    requires Inv(s) && c < |s.cpus| && s.cpus[c] == Running(p) && p < |s.procs|
    requires var pc := s.procs[p].pc; pc.Sleep3? || pc.Yield2? || pc.Exit2?
    ensures Inv(Kernel(s, c, p))
  {
    assert ProcOk(s, p);
    match s.procs[p].pc
    case Sleep3(chan, lk) => SwitchInv(s, c, p, Slept(chan, lk));
    case Yield2 => SwitchInv(s, c, p, Yielded);
    case Exit2 => SwitchInv(s, c, p, Exited);
  }

  lemma UnlockInv(s: State, c: nat, p: nat)
    requires Inv(s) && c < |s.cpus| && s.cpus[c] == Running(p) && p < |s.procs|
    requires var pc := s.procs[p].pc; pc.Woken? || pc.Yield3?
    ensures Inv(Kernel(s, c, p))
  {
    var t := Kernel(s, c, p);
    assert CpuOk(s, c) && ProcOk(s, p) && LkOk(s, p);
    forall d: nat | d < |s.cpus| ensures CpuOk(t, d) {
      assert CpuOk(s, d);
    }
    forall q: nat | q < |s.procs| ensures ProcOk(t, q) && LkOk(t, q) {
      assert ProcOk(s, q) && LkOk(s, q);
    }
    forall q: nat, l: nat | q < |s.procs| && l < |s.lks| ensures WakeOk(t, q, l) {
      assert WakeOk(s, q, l);
    }
  }

  lemma RelockInv(s: State, c: nat, p: nat)
    requires Inv(s) && c < |s.cpus| && s.cpus[c] == Running(p) && p < |s.procs| && s.procs[p].pc.Relock?
    ensures Inv(Kernel(s, c, p))
  {
    var lk := s.procs[p].pc.lk;
    if lk < |s.lks| && s.lks[lk] < 0 {
      PlainInv(s, c, p, Ready);
      LkInv(s.Goto(p, Ready), c, p, lk, p);
    }
  }

  lemma LeaveInv(s: State, c: nat, p: nat)
    requires Inv(s) && c < |s.cpus| && s.cpus[c] == Running(p) && p < |s.procs|
    requires var pc := s.procs[p].pc; pc.Yield1? || pc.Exit1?
    ensures Inv(Kernel(s, c, p))
  {
    var t := Kernel(s, c, p);
    assert CpuOk(s, c) && ProcOk(s, p) && LkOk(s, p);
    forall d: nat | d < |s.cpus| ensures CpuOk(t, d) {
      assert CpuOk(s, d);
    }
    forall q: nat | q < |s.procs| ensures ProcOk(t, q) && LkOk(t, q) {
      assert ProcOk(s, q) && LkOk(s, q);
    }
    forall q: nat, l: nat | q < |s.procs| && l < |s.lks| ensures WakeOk(t, q, l) {
      assert WakeOk(s, q, l);
    }
  }

  /** Taking the p->lock of another process. */
  function LockOther(s: State, c: nat, p: nat, i: nat, pc: Pc): State
    requires p < |s.procs| && i < |s.procs|
  {
    s.Set(i, s.procs[i].(lock := c)).Goto(p, pc)
  }

  lemma LockOtherInv(s: State, c: nat, p: nat, i: nat, pc: Pc)
    requires Inv(s) && c < |s.cpus| && s.cpus[c] == Running(p) && p < |s.procs| && i < |s.procs| && i != p
    requires Plain(s.procs[p].pc) && s.procs[i].lock < 0 && HoldsOther(pc) && pc.i == i
    requires forall l: nat :: l < |s.lks| ==> WakeOk(LockOther(s, c, p, i, pc), p, l)
    ensures Inv(LockOther(s, c, p, i, pc))
  {
    var t := LockOther(s, c, p, i, pc);
    assert CpuOk(s, c) && ProcOk(s, p) && LkOk(s, p);
    forall d: nat | d < |s.cpus| ensures CpuOk(t, d) {
      assert CpuOk(s, d);
    }
    forall q: nat | q < |s.procs| ensures ProcOk(t, q) && LkOk(t, q) {
      assert ProcOk(s, q) && LkOk(s, q);
    }
    forall q: nat, l: nat | q < |s.procs| && l < |s.lks| ensures WakeOk(t, q, l) {
      assert WakeOk(s, q, l);
    }
  }

  lemma ReachInv(s: State, c: nat, p: nat)
    requires Inv(s) && c < |s.cpus| && s.cpus[c] == Running(p) && p < |s.procs|
    requires var pc := s.procs[p].pc; pc.Wake? || pc.Kill? || pc.Fork? || pc.Reap?
    ensures Inv(Kernel(s, c, p))
  {
    var me := s.procs[p];
    if me.pc.i >= |s.procs| || (me.pc.i == p && !me.pc.Wake?) {
      PlainInv(s, c, p, Ready);
    } else if me.pc.i == p {
      var pc := Wake(me.pc.chan, p + 1);
      forall l: nat | l < |s.lks| ensures WakeOk(s.Goto(p, pc), p, l) {
        assert WakeOk(s, p, l);
      }
      PlainInv(s, c, p, pc);
    } else if s.procs[me.pc.i].lock < 0 {
      var i := me.pc.i;
      var pc := match me.pc
                case Wake(chan, _) => WakeHolding(chan, i)
                case Kill(_) => KillHolding(i)
                case Reap(_) => ReapHolding(i)
                case _ => ForkHolding(i);
      forall l: nat | l < |s.lks| ensures WakeOk(LockOther(s, c, p, i, pc), p, l) {
        assert WakeOk(s, p, l);
      }
      LockOtherInv(s, c, p, i, pc);
    }
  }

  /** What a process may become while another one holds its p->lock. */
  ghost predicate CanUnlock(x: Proc, y: Proc) {
    && y.lock == -1 && y.on == x.on && PlaceOk(y) && (y.pc == x.pc || (OffCpu(x.pc) && OffCpu(y.pc)))
    && forall chan, lk :: Committed(y, chan, lk) ==> Committed(x, chan, lk)
  }

  lemma UnlockOtherCpus(s: State, c: nat, p: nat, i: nat, y: Proc, pc: Pc)
    requires Inv(s) && c < |s.cpus| && s.cpus[c] == Running(p) && p < |s.procs| && HoldsOther(s.procs[p].pc)
    requires i == s.procs[p].pc.i < |s.procs| && CanUnlock(s.procs[i], y) && Plain(pc)
    ensures var t := s.Set(i, y).Goto(p, pc); forall d: nat :: d < |s.cpus| ==> CpuOk(t, d)
  {
    hide WakeOk, Committed, LkOk, PlaceOk;
    var t := s.Set(i, y).Goto(p, pc);
    LockedByOther(s, c, p);
    assert CpuOk(s, c) && ProcOk(s, p) && ProcOk(s, i);
    forall d: nat | d < |s.cpus| ensures CpuOk(t, d) {
      assert CpuOk(s, d);
    }
  }

  lemma UnlockOtherProcs(s: State, c: nat, p: nat, i: nat, y: Proc, pc: Pc)
    requires Inv(s) && c < |s.cpus| && s.cpus[c] == Running(p) && p < |s.procs| && HoldsOther(s.procs[p].pc)
    requires i == s.procs[p].pc.i < |s.procs| && CanUnlock(s.procs[i], y) && Plain(pc)
    ensures var t := s.Set(i, y).Goto(p, pc); forall q: nat :: q < |s.procs| ==> ProcOk(t, q)
  {
    hide WakeOk, Committed, LkOk;
    var t := s.Set(i, y).Goto(p, pc);
    LockedByOther(s, c, p);
    assert CpuOk(s, c) && ProcOk(s, p) && ProcOk(s, i);
    forall q: nat | q < |s.procs| ensures ProcOk(t, q) {
      assert ProcOk(s, q);
      if q != p && q != i {
        hide PlaceOk;
      }
    }
  }

  lemma UnlockOtherLks(s: State, c: nat, p: nat, i: nat, y: Proc, pc: Pc)
    requires Inv(s) && c < |s.cpus| && s.cpus[c] == Running(p) && p < |s.procs| && HoldsOther(s.procs[p].pc)
    requires i == s.procs[p].pc.i < |s.procs| && CanUnlock(s.procs[i], y) && Plain(pc) && !pc.Sleep0?
    ensures var t := s.Set(i, y).Goto(p, pc); forall q: nat :: q < |s.procs| ==> LkOk(t, q)
  {
    hide WakeOk, Committed, CpuOk, PlaceOk;
    forall q: nat | q < |s.procs| ensures LkOk(s.Set(i, y).Goto(p, pc), q) {
      assert LkOk(s, q);
    }
  }

  /** Releasing the p->lock of another process, which may have been woken or
      made runnable under it. */
  lemma UnlockOtherInv(s: State, c: nat, p: nat, i: nat, y: Proc, pc: Pc)
    requires Inv(s) && c < |s.cpus| && s.cpus[c] == Running(p) && p < |s.procs| && HoldsOther(s.procs[p].pc)
    requires i == s.procs[p].pc.i < |s.procs| && CanUnlock(s.procs[i], y) && Plain(pc) && !pc.Sleep0?
    requires forall l: nat :: l < |s.lks| ==> WakeOk(s.Set(i, y).Goto(p, pc), p, l)
    ensures Inv(s.Set(i, y).Goto(p, pc))
  {
    hide CpuOk, ProcOk, LkOk;
    var t := s.Set(i, y).Goto(p, pc);
    LockedByOther(s, c, p);
    UnlockOtherCpus(s, c, p, i, y, pc);
    UnlockOtherProcs(s, c, p, i, y, pc);
    UnlockOtherLks(s, c, p, i, y, pc);
    forall q: nat, l: nat | q < |s.procs| && l < |s.lks| ensures WakeOk(t, q, l) {
      assert WakeOk(s, q, l);
    }
  }

  lemma WokenInv(s: State, c: nat, p: nat)
    requires Inv(s) && c < |s.cpus| && s.cpus[c] == Running(p) && p < |s.procs| && s.procs[p].pc.WakeHolding?
    ensures Inv(Kernel(s, c, p))
  {
    LockedByOther(s, c, p);
    var chan, i := s.procs[p].pc.chan, s.procs[p].pc.i;
    var x := s.procs[i];
    var y := x.(state := if x.state == SLEEPING && x.chan == chan then RUNNABLE else x.state, lock := -1);
    var t := s.Set(i, y).Goto(p, Wake(chan, i + 1));
    forall l: nat | l < |s.lks| ensures WakeOk(t, p, l) {
      assert WakeOk(s, p, l);
    }
    hide Inv, WakeOk;
    UnlockOtherInv(s, c, p, i, y, Wake(chan, i + 1));
  }

  lemma HoldingOtherInv(s: State, c: nat, p: nat)
    requires Inv(s) && c < |s.cpus| && s.cpus[c] == Running(p) && p < |s.procs| && HoldsOther(s.procs[p].pc)
    requires !s.procs[p].pc.WakeHolding?
    ensures Inv(Kernel(s, c, p))
  {
    LockedByOther(s, c, p);
    hide Inv;
    var i := s.procs[p].pc.i;
    var x := s.procs[i];
    match s.procs[p].pc
    case KillHolding(_) =>
      UnlockOtherInv(s, c, p, i, x.(state := if x.state == SLEEPING then RUNNABLE else x.state, lock := -1), Ready);
    case ReapHolding(_) =>
      UnlockOtherInv(s, c, p, i, Reaped(x), Ready);
    case ForkHolding(_) =>
      UnlockOtherInv(s, c, p, i, if x.state == UNUSED then x.(state := RUNNABLE, pc := Yielded, lock := -1)
                                 else x.(lock := -1), Ready);
  }

  lemma KernelInv(s: State, c: nat, p: nat)
    requires Inv(s) && c < |s.cpus| && s.cpus[c] == Running(p) && p < |s.procs| && s.procs[p].pc != Ready
    ensures Inv(Kernel(s, c, p))
  {
    hide Inv, Kernel;
    match s.procs[p].pc {
      case Sleep0(_, _) => SleepInv(s, c, p);
      case Sleep1(_, _) => SleepInv(s, c, p);
      case Sleep2(_, _) => SleepInv(s, c, p);
      case Sleep3(_, _) => SchedInv(s, c, p);
      case Yield2 => SchedInv(s, c, p);
      case Exit2 => SchedInv(s, c, p);
      case Woken(_) => UnlockInv(s, c, p);
      case Relock(_) => RelockInv(s, c, p);
      case Yield3 => UnlockInv(s, c, p);
      case Yield1 => LeaveInv(s, c, p);
      case Exit1 => LeaveInv(s, c, p);
      case Wake(_, _) => ReachInv(s, c, p);
      case Kill(_) => ReachInv(s, c, p);
      case Fork(_) => ReachInv(s, c, p);
      case Reap(_) => ReachInv(s, c, p);
      case WakeHolding(_, _) => WokenInv(s, c, p);
      case KillHolding(_) => HoldingOtherInv(s, c, p);
      case ForkHolding(_) => HoldingOtherInv(s, c, p);
      case ReapHolding(_) => HoldingOtherInv(s, c, p);
      case _ => OffCpuStays(s, c, p);
    }
  }

  lemma OffCpuStays(s: State, c: nat, p: nat)
    requires Inv(s) && c < |s.cpus| && s.cpus[c] == Running(p) && p < |s.procs| && OffCpu(s.procs[p].pc)
    ensures Inv(Kernel(s, c, p))
  {
  }

  lemma StepInv(s: State, c: nat, a: Action)
    requires Inv(s)
    ensures Inv(Step(s, c, a))
  {
    if c < |s.cpus| {
      match s.cpus[c]
      case Scan(_) => ScanInv(s, c);
      case Holding(i) =>
        assert CpuOk(s, c);
        if s.procs[i].state == RUNNABLE {
          DispatchInv(s, c, i);
        } else {
          HoldingInv(s, c, i);
        }
      case Back(_) => BackInv(s, c);
      case Running(p) =>
        if p < |s.procs| {
          if s.procs[p].pc == Ready {
            CallInv(s, c, p, a);
          } else {
            KernelInv(s, c, p);
          }
        }
    }
  }

  lemma {:induction false} AlwaysInv(s: State, run: seq<(nat, Action)>)
    requires Boot(s)
    ensures Inv(Run(s, run))
  {
    if run == [] {
      BootInv(s);
    } else {
      AlwaysInv(s, run[..|run| - 1]);
      StepInv(Run(s, run[..|run| - 1]), run[|run| - 1].0, run[|run| - 1].1);
    }
  }

  /** In every interleaving, no process runs on two CPUs, and every process
      whose state is RUNNING runs on one. */
  lemma OneCpuPerProcess(s: State, run: seq<(nat, Action)>, p: nat)
    requires Boot(s) && p < |s.procs|
    ensures var t := Run(s, run);
            && (forall c, d :: 0 <= c < |t.cpus| && 0 <= d < |t.cpus| && t.cpus[c] == t.cpus[d] == Running(p) ==> c == d)
            && (t.procs[p].state == RUNNING ==> exists c :: 0 <= c < |t.cpus| && t.cpus[c] == Running(p))
  {
    hide Run;
    var t := Run(s, run);
    AlwaysInv(s, run);
    assert ProcOk(t, p);
    forall c, d | 0 <= c < |t.cpus| && 0 <= d < |t.cpus| && t.cpus[c] == t.cpus[d] == Running(p) ensures c == d {
      assert CpuOk(t, c) && CpuOk(t, d);
    }
  }

  /** In every interleaving: when a process has finished wakeup(chan) and still
      holds lk, nobody is left asleep in sleep(chan, lk) or on the way to it
      without lk. Whoever had decided to sleep before is awake or will be run. */
  lemma NoLostWakeup(s: State, run: seq<(nat, Action)>, q: nat, lk: nat)
    requires Boot(s) && q < |s.procs| && lk < |s.lks|
    ensures var t := Run(s, run);
            t.lks[lk] == q && t.procs[q].pc.Wake? && t.procs[q].pc.i >= |t.procs| ==>
              forall p :: 0 <= p < |t.procs| && p != q ==>
                && t.procs[p].pc != Sleep2(t.procs[q].pc.chan, lk) && t.procs[p].pc != Sleep3(t.procs[q].pc.chan, lk)
                && (t.procs[p].pc == Slept(t.procs[q].pc.chan, lk) ==> t.procs[p].state == RUNNABLE)
  {
    hide Run;
    var t := Run(s, run);
    AlwaysInv(s, run);
    assert WakeOk(t, q, lk);
    var pc := t.procs[q].pc;
    if t.lks[lk] == q && pc.Wake? && pc.i >= |t.procs| {
      forall p | 0 <= p < |t.procs| && p != q
        ensures !Committed(t.procs[p], pc.chan, lk) && PlaceOk(t.procs[p])
      {
        assert ProcOk(t, p);
      }
    }
  }

  /** A wakeup that is not under lk can come too early: process 0 has decided
      to sleep, but is still RUNNING when process 1 looks at it. */
  ghost function LostRun(): seq<(nat, Action)> {
    [(0, Continue), (0, Continue), (0, Continue), (0, Acquire(0)), (0, CallSleep(7, 0)),
     (1, Continue), (1, Continue), (1, Continue), (1, Continue), (1, Continue), (1, CallWakeup(7)),
     (1, Continue), (1, Continue), (1, Continue), (1, Continue), (0, Continue), (0, Continue), (0, Continue), (0, Continue)]
  }

  ghost function TwoProcs(): State {
    var x := Proc(RUNNABLE, 0, -1, -1, Yielded);
    State([x, x], [Scan(0), Scan(0)], [-1])
  }

  lemma {:induction false} RunOn(s: State, a: seq<(nat, Action)>, b: seq<(nat, Action)>)
    ensures Run(s, a + b) == Run(Run(s, a), b)
  {
    if b == [] {
      assert a + b == a;
    } else {
      assert (a + b)[..|a + b| - 1] == a + b[..|b| - 1];
      RunOn(s, a, b[..|b| - 1]);
    }
  }

  lemma RunFirst(s: State, x: (nat, Action), rest: seq<(nat, Action)>)
    ensures Run(s, [x] + rest) == Run(Step(s, x.0, x.1), rest)
  {
    RunOn(s, [x], rest);
    assert [x][..0] == [];
  }

  const LOST_4 :=
    State([Proc(RUNNING, 0, -1, 0, Ready), Proc(RUNNABLE, 0, -1, -1, Yielded)],
          [Running(0), Scan(0)], [0])

  const LOST_8 :=
    State([Proc(RUNNING, 0, -1, 0, Sleep0(7, 0)), Proc(RUNNABLE, 0, 1, -1, Yielded)],
          [Running(0), Holding(1)], [0])

  const LOST_12 :=
    State([Proc(RUNNING, 0, 1, 0, Sleep0(7, 0)), Proc(RUNNING, 0, -1, 1, WakeHolding(7, 0))],
          [Running(0), Running(1)], [0])

  const LOST_16 :=
    State([Proc(RUNNING, 0, 0, 0, Sleep1(7, 0)), Proc(RUNNING, 0, -1, 1, Ready)],
          [Running(0), Running(1)], [0])

  lemma Lost1()
    ensures Step(Step(Step(Step(TwoProcs(), 0, Continue), 0, Continue), 0, Continue), 0, Acquire(0))
            == LOST_4
  {
    var s0 := TwoProcs();
    var s1 := Step(s0, 0, Continue);
    assert s1.procs == [Proc(RUNNABLE, 0, 0, -1, Yielded), Proc(RUNNABLE, 0, -1, -1, Yielded)];
    var s2 := Step(s1, 0, Continue);
    assert s2.procs == [Proc(RUNNING, 0, 0, 0, Yield3), Proc(RUNNABLE, 0, -1, -1, Yielded)];
    var s3 := Step(s2, 0, Continue);
    assert s3.procs == [Proc(RUNNING, 0, -1, 0, Ready), Proc(RUNNABLE, 0, -1, -1, Yielded)];
    var s4 := Step(s3, 0, Acquire(0));
    assert s4.procs == [Proc(RUNNING, 0, -1, 0, Ready), Proc(RUNNABLE, 0, -1, -1, Yielded)];
  }

  lemma Lost2()
    ensures Step(Step(Step(Step(LOST_4, 0, CallSleep(7, 0)), 1, Continue), 1, Continue), 1, Continue)
            == LOST_8
  {
    var s0 := LOST_4;
    var s1 := Step(s0, 0, CallSleep(7, 0));
    assert s1.procs == [Proc(RUNNING, 0, -1, 0, Sleep0(7, 0)), Proc(RUNNABLE, 0, -1, -1, Yielded)];
    var s2 := Step(s1, 1, Continue);
    assert s2.procs == [Proc(RUNNING, 0, 1, 0, Sleep0(7, 0)), Proc(RUNNABLE, 0, -1, -1, Yielded)];
    var s3 := Step(s2, 1, Continue);
    assert s3.procs == [Proc(RUNNING, 0, -1, 0, Sleep0(7, 0)), Proc(RUNNABLE, 0, -1, -1, Yielded)];
    var s4 := Step(s3, 1, Continue);
    assert s4.procs == [Proc(RUNNING, 0, -1, 0, Sleep0(7, 0)), Proc(RUNNABLE, 0, 1, -1, Yielded)];
  }

  lemma Lost3()
    ensures Step(Step(Step(Step(LOST_8, 1, Continue), 1, Continue), 1, CallWakeup(7)), 1, Continue)
            == LOST_12
  {
    var s0 := LOST_8;
    var s1 := Step(s0, 1, Continue);
    assert s1.procs == [Proc(RUNNING, 0, -1, 0, Sleep0(7, 0)), Proc(RUNNING, 0, 1, 1, Yield3)];
    var s2 := Step(s1, 1, Continue);
    assert s2.procs == [Proc(RUNNING, 0, -1, 0, Sleep0(7, 0)), Proc(RUNNING, 0, -1, 1, Ready)];
    var s3 := Step(s2, 1, CallWakeup(7));
    assert s3.procs == [Proc(RUNNING, 0, -1, 0, Sleep0(7, 0)), Proc(RUNNING, 0, -1, 1, Wake(7, 0))];
    var s4 := Step(s3, 1, Continue);
    assert s4.procs == [Proc(RUNNING, 0, 1, 0, Sleep0(7, 0)), Proc(RUNNING, 0, -1, 1, WakeHolding(7, 0))];
  }

  lemma Lost4()
    ensures Step(Step(Step(Step(LOST_12, 1, Continue), 1, Continue), 1, Continue), 0, Continue)
            == LOST_16
  {
    var s0 := LOST_12;
    var s1 := Step(s0, 1, Continue);
    assert s1.procs == [Proc(RUNNING, 0, -1, 0, Sleep0(7, 0)), Proc(RUNNING, 0, -1, 1, Wake(7, 1))];
    var s2 := Step(s1, 1, Continue);
    assert s2.procs == [Proc(RUNNING, 0, -1, 0, Sleep0(7, 0)), Proc(RUNNING, 0, -1, 1, Wake(7, 2))];
    var s3 := Step(s2, 1, Continue);
    assert s3.procs == [Proc(RUNNING, 0, -1, 0, Sleep0(7, 0)), Proc(RUNNING, 0, -1, 1, Ready)];
    var s4 := Step(s3, 0, Continue);
    assert s4.procs == [Proc(RUNNING, 0, 0, 0, Sleep1(7, 0)), Proc(RUNNING, 0, -1, 1, Ready)];
  }

  lemma Lost5()
    ensures Step(Step(Step(LOST_16, 0, Continue), 0, Continue), 0, Continue)
            == State([Proc(SLEEPING, 7, 0, -1, Slept(7, 0)), Proc(RUNNING, 0, -1, 1, Ready)], [Back(0), Running(1)], [-1])
  {
    var s0 := LOST_16;
    var s1 := Step(s0, 0, Continue);
    assert s1.procs == [Proc(RUNNING, 0, 0, 0, Sleep2(7, 0)), Proc(RUNNING, 0, -1, 1, Ready)];
    var s2 := Step(s1, 0, Continue);
    assert s2.procs == [Proc(SLEEPING, 7, 0, 0, Sleep3(7, 0)), Proc(RUNNING, 0, -1, 1, Ready)];
    var s3 := Step(s2, 0, Continue);
    assert s3.procs == [Proc(SLEEPING, 7, 0, -1, Slept(7, 0)), Proc(RUNNING, 0, -1, 1, Ready)];
  }

  lemma {:induction false} RunSteps(s: State, run: seq<(nat, Action)>)
    requires |run| >= 4
    ensures Run(s, run)
            == Run(Step(Step(Step(Step(s, run[0].0, run[0].1), run[1].0, run[1].1), run[2].0, run[2].1), run[3].0, run[3].1),
                   run[4..])
  {
    hide Step;
    var r1, r2, r3 := run[1..], run[2..], run[3..];
    assert run == [run[0]] + r1 && r1 == [run[1]] + r2 && r2 == [run[2]] + r3 && r3 == [run[3]] + run[4..];
    RunFirst(s, run[0], r1);
    var s1 := Step(s, run[0].0, run[0].1);
    RunFirst(s1, run[1], r2);
    var s2 := Step(s1, run[1].0, run[1].1);
    RunFirst(s2, run[2], r3);
    RunFirst(Step(s2, run[2].0, run[2].1), run[3], run[4..]);
  }

  lemma WakeupWithoutLockIsLost()
    ensures var t := Run(TwoProcs(), LostRun());
            Boot(TwoProcs()) && t.procs[0].state == SLEEPING && t.procs[0].pc == Slept(7, 0) && t.procs[1].pc == Ready
  {
    hide Run, Step;
    var r := LostRun();
    RunSteps(TwoProcs(), r);
    Lost1();
    RunSteps(LOST_4, r[4..]);
    Lost2();
    RunSteps(LOST_8, r[8..]);
    Lost3();
    RunSteps(LOST_12, r[12..]);
    Lost4();
    RunLast(LOST_16, r[16..]);
    Lost5();
  }

  lemma RunLast(s: State, run: seq<(nat, Action)>)
    requires |run| == 3
    ensures Run(s, run) == Step(Step(Step(s, run[0].0, run[0].1), run[1].0, run[1].1), run[2].0, run[2].1)
  {
    hide Step;
    var r1, r2 := run[1..], run[2..];
    assert run == [run[0]] + r1 && r1 == [run[1]] + r2 && r2 == [run[2]] + [];
    RunFirst(s, run[0], r1);
    RunFirst(Step(s, run[0].0, run[0].1), run[1], r2);
    RunFirst(Step(Step(s, run[0].0, run[0].1), run[1].0, run[1].1), run[2], []);
  }

  /** n steps of CPU c, and of no other. */
  function Alone(s: State, c: nat, n: nat): (t: State)
    ensures |t.procs| == |s.procs| && |t.cpus| == |s.cpus| && |t.lks| == |s.lks|
    decreases n
  {
    if n == 0 then s else Alone(Step(s, c, Continue), c, n - 1)
  }

  lemma {:induction false} AloneOn(s: State, c: nat, m: nat, n: nat)
    ensures Alone(s, c, m + n) == Alone(Alone(s, c, m), c, n)
    decreases m
  {
    hide Step;
    if m > 0 {
      AloneOn(Step(s, c, Continue), c, m - 1, n);
    }
  }

  /** Nobody holds a p->lock. */
  ghost predicate Free(s: State) {
    forall q :: 0 <= q < |s.procs| ==> s.procs[q].lock == -1
  }

  /** CPU c runs p, which is in ordinary code. */
  ghost predicate Runs(s: State, c: nat, p: nat) {
    c < |s.cpus| && p < |s.procs| && s.cpus[c] == Running(p) && s.procs[p].pc == Ready
  }

  /** Those from slot i on that sleep on chan are RUNNABLE, and nothing else
      has changed. */
  ghost predicate Awakened(s: State, t: State, p: nat, chan: nat, i: nat) {
    && |t.procs| == |s.procs| && t.cpus == s.cpus && t.lks == s.lks
    && forall q :: 0 <= q < |s.procs| ==>
         t.procs[q] == if q == p then s.procs[q].(pc := Ready)
                       else if i <= q && s.procs[q].state == SLEEPING && s.procs[q].chan == chan
                       then s.procs[q].(state := RUNNABLE) else s.procs[q]
  }

  /** One turn of wakeup's loop. */
  lemma WakeTurn(s: State, c: nat, p: nat, chan: nat, i: nat) returns (n: nat, t: State)
    requires Free(s) && c < |s.cpus| && p < |s.procs| && s.cpus[c] == Running(p)
    requires s.procs[p].pc == Wake(chan, i) && i < |s.procs|
    ensures t == Alone(s, c, n) && Free(t) && t.cpus == s.cpus && t.procs[p].pc == Wake(chan, i + 1)
    ensures forall u :: Awakened(t, u, p, chan, i + 1) ==> Awakened(s, u, p, chan, i)
  {
    var s1 := Step(s, c, Continue);
    assert Alone(s1, c, 0) == s1;
    if i == p {
      n, t := 1, s1;
    } else {
      n, t := 2, Step(s1, c, Continue);
      assert Alone(t, c, 0) == t && Alone(s1, c, 1) == t;
    }
  }

  lemma {:induction false} WakeLoop(s: State, c: nat, p: nat, chan: nat, i: nat) returns (n: nat)
    requires Free(s) && c < |s.cpus| && p < |s.procs| && s.cpus[c] == Running(p)
    requires s.procs[p].pc == Wake(chan, i) && i <= |s.procs|
    ensures Awakened(s, Alone(s, c, n), p, chan, i)
    decreases |s.procs| - i
  {
    hide Step, Awakened;
    if i == |s.procs| {
      n := 1;
      WakeEnd(s, c, p, chan);
    } else {
      var m, t := WakeTurn(s, c, p, chan, i);
      var rest := WakeLoop(t, c, p, chan, i + 1);
      AloneOn(s, c, m, rest);
      n := m + rest;
    }
  }

  lemma WakeEnd(s: State, c: nat, p: nat, chan: nat)
    requires c < |s.cpus| && p < |s.procs| && s.cpus[c] == Running(p) && s.procs[p].pc == Wake(chan, |s.procs|)
    ensures Awakened(s, Alone(s, c, 1), p, chan, |s.procs|)
  {
    var t := Step(s, c, Continue);
    assert Alone(t, c, 0) == t;
  }

  /** wakeup(chan) wakes exactly those that sleep on chan. */
  lemma WakeupWakes(s: State, c: nat, p: nat, chan: nat)
    requires Free(s) && Runs(s, c, p)
    ensures exists n: nat :: Awakened(s, Alone(Step(s, c, CallWakeup(chan)), c, n), p, chan, 0)
  {
    var t := Step(s, c, CallWakeup(chan));
    var n := WakeLoop(t, c, p, chan, 0);
  }

  /** sleep(chan, lk) gives up lk and the CPU, whose scheduler goes on behind it. */
  lemma SleepLeaves(s: State, c: nat, p: nat, chan: nat, lk: nat)
    requires Free(s) && Runs(s, c, p) && lk < |s.lks| && s.lks[lk] == p
    ensures Alone(Step(s, c, CallSleep(chan, lk)), c, 5) ==
            State(s.procs[p := s.procs[p].(state := SLEEPING, chan := chan, on := -1, pc := Slept(chan, lk))],
                  s.cpus[c := Scan(p + 1)], s.lks[lk := -1])
  {
    var x := s.procs[p];
    var t2 := Step(Step(Step(s, c, CallSleep(chan, lk)), c, Continue), c, Continue);
    assert t2.procs == s.procs[p := x.(lock := c, pc := Sleep2(chan, lk))] && t2.lks == s.lks[lk := -1];
    var t4 := Step(Step(t2, c, Continue), c, Continue);
    assert t4.procs == s.procs[p := x.(state := SLEEPING, chan := chan, lock := c, on := -1, pc := Slept(chan, lk))];
    var t5 := Step(t4, c, Continue);
    assert t5.procs == s.procs[p := x.(state := SLEEPING, chan := chan, on := -1, pc := Slept(chan, lk))];
    assert t5.cpus == s.cpus[c := Scan(p + 1)];
    AloneFive(Step(s, c, CallSleep(chan, lk)), c);
  }

  function Go(s: State, c: nat): State {
    Step(s, c, Continue)
  }

  lemma AloneFive(s: State, c: nat)
    ensures Alone(s, c, 5) == Go(Go(Go(Go(Go(s, c), c), c), c), c) && Alone(s, c, 3) == Go(Go(Go(s, c), c), c)
    ensures Alone(s, c, 2) == Go(Go(s, c), c) && Alone(s, c, 1) == Go(s, c)
  {
    hide Step, Go;
    var t := Go(s, c);
    AloneOne(s, c);
    AloneOne(t, c);
    AloneOne(Go(t, c), c);
    AloneOne(Go(Go(t, c), c), c);
    AloneOne(Go(Go(Go(t, c), c), c), c);
    AloneOn(s, c, 1, 1);
    AloneOn(s, c, 2, 1);
    AloneOn(s, c, 3, 1);
    AloneOn(s, c, 4, 1);
  }

  lemma AloneOne(s: State, c: nat)
    ensures Alone(s, c, 1) == Go(s, c)
  {
    hide Step;
    assert Alone(Go(s, c), c, 0) == Go(s, c);
  }

  /** yield and exit give up the CPU, too, and exit for good. */
  lemma OthersLeave(s: State, c: nat, p: nat)
    requires Free(s) && Runs(s, c, p)
    ensures Alone(Step(s, c, CallYield), c, 3) ==
            State(s.procs[p := s.procs[p].(state := RUNNABLE, on := -1, pc := Yielded)], s.cpus[c := Scan(p + 1)], s.lks)
    ensures Alone(Step(s, c, CallExit), c, 3) ==
            State(s.procs[p := s.procs[p].(state := ZOMBIE, on := -1, pc := Exited)], s.cpus[c := Scan(p + 1)], s.lks)
  {
    Leaves(s, c, p, CallYield, RUNNABLE, Yielded);
    Leaves(s, c, p, CallExit, ZOMBIE, Exited);
  }

  lemma Leaves(s: State, c: nat, p: nat, a: Action, to: PState, pc: Pc)
    requires Free(s) && Runs(s, c, p)
    requires (a == CallYield && to == RUNNABLE && pc == Yielded) || (a == CallExit && to == ZOMBIE && pc == Exited)
    ensures Alone(Step(s, c, a), c, 3) ==
            State(s.procs[p := s.procs[p].(state := to, on := -1, pc := pc)], s.cpus[c := Scan(p + 1)], s.lks)
  {
    var x := s.procs[p];
    var t1 := Go(Step(s, c, a), c);
    assert t1.procs == s.procs[p := x.(state := to, lock := c, pc := if a == CallExit then Exit2 else Yield2)];
    var t2 := Go(t1, c);
    assert t2.procs == s.procs[p := x.(state := to, lock := c, on := -1, pc := pc)];
    var t3 := Go(t2, c);
    assert t3.procs == s.procs[p := x.(state := to, on := -1, pc := pc)] && t3.cpus == s.cpus[c := Scan(p + 1)];
    AloneFive(Step(s, c, a), c);
  }

  /** What kill, fork and wait do to slot i. */
  function Affected(a: Action, x: Proc): Proc {
    match a
    case CallKill(_) => if x.state == SLEEPING then x.(state := RUNNABLE) else x
    case CallFork(_) => if x.state == UNUSED then x.(state := RUNNABLE, pc := Yielded) else x
    case CallReap(_) => if x.state == ZOMBIE then x.(state := UNUSED, chan := 0, pc := Yielded) else x
    case _ => x
  }

  /** kill wakes a sleeper, fork makes an UNUSED slot RUNNABLE and wait frees a
      ZOMBIE's: that slot alone changes, and the caller goes on. */
  lemma OtherChanges(s: State, c: nat, p: nat, i: nat, a: Action)
    requires Free(s) && Runs(s, c, p) && i < |s.procs| && i != p
    requires a == CallKill(i) || a == CallFork(i) || a == CallReap(i)
    ensures Alone(Step(s, c, a), c, 2) == s.Set(i, Affected(a, s.procs[i]))
  {
    AloneFive(Step(s, c, a), c);
    hide Alone;
    ReachesSlot(s, c, p, i, a);
    var t := s.Set(i, s.procs[i].(lock := c)).Goto(p, WithSlot(a));
    ChangesSlot(t, c, p, i, a);
    assert Go(t, c).procs == s.procs[i := Affected(a, s.procs[i])];
  }

  /** Where the caller is while it has slot i's lock. */
  function WithSlot(a: Action): Pc {
    match a
    case CallKill(i) => KillHolding(i)
    case CallFork(i) => ForkHolding(i)
    case CallReap(i) => ReapHolding(i)
    case _ => Ready
  }

  lemma ReachesSlot(s: State, c: nat, p: nat, i: nat, a: Action)
    requires Free(s) && Runs(s, c, p) && i < |s.procs| && i != p
    requires a == CallKill(i) || a == CallFork(i) || a == CallReap(i)
    ensures Go(Step(s, c, a), c) == s.Set(i, s.procs[i].(lock := c)).Goto(p, WithSlot(a))
  {
    assert Go(Step(s, c, a), c).procs == s.procs[i := s.procs[i].(lock := c)][p := s.procs[p].(pc := WithSlot(a))];
  }

  lemma ChangesSlot(s: State, c: nat, p: nat, i: nat, a: Action)
    requires c < |s.cpus| && p < |s.procs| && s.cpus[c] == Running(p) && i < |s.procs| && i != p
    requires a == CallKill(i) || a == CallFork(i) || a == CallReap(i)
    requires s.procs[p].pc == WithSlot(a)
    ensures Go(s, c) == s.Set(i, Affected(a, s.procs[i]).(lock := -1)).Goto(p, Ready)
  {
  }

  /** q is the first RUNNABLE process from slot i on, around the table. */
  predicate FirstFrom(s: State, i: nat, q: nat) {
    && q < |s.procs| && s.procs[q].state == RUNNABLE
    && (forall j :: i <= j < |s.procs| && (q < i || j < q) ==> s.procs[j].state != RUNNABLE)
    && (q < i ==> forall j :: 0 <= j < q ==> s.procs[j].state != RUNNABLE)
  }

  /** The state in which scheduler has just switched to q. */
  function Switched(s: State, c: nat, q: nat): State
    requires c < |s.cpus| && q < |s.procs|
  {
    s.Set(q, s.procs[q].(state := RUNNING, on := c, lock := c, pc := Resumed(s.procs[q].pc))).Cpu(c, Running(q))
  }

  /** The scheduler passes over one slot. */
  lemma ScanTurn(s: State, c: nat, i: nat) returns (n: nat)
    requires Free(s) && c < |s.cpus| && s.cpus[c] == Scan(i) && (i < |s.procs| ==> s.procs[i].state != RUNNABLE)
    ensures Alone(s, c, n) == s.Cpu(c, Scan(if i < |s.procs| then i + 1 else 0))
  {
    AloneFive(s, c);
    if i < |s.procs| {
      n := 2;
      var t := Go(Go(s, c), c);
      assert t.procs == s.procs && t.cpus == s.cpus[c := Scan(i + 1)];
    } else {
      n := 1;
    }
  }

  lemma {:induction false} Finds(s: State, c: nat, i: nat, q: nat) returns (n: nat)
    requires Free(s) && c < |s.cpus| && s.cpus[c] == Scan(i) && FirstFrom(s, i, q)
    ensures Alone(s, c, n) == Switched(s, c, q)
    decreases q < i, if q < i then |s.procs| - i else q - i
  {
    hide Step;
    if i == q {
      SwitchNow(s, c, q);
      n := 2;
    } else {
      var m := ScanTurn(s, c, i);
      var j := if i < |s.procs| then i + 1 else 0;
      var t := s.Cpu(c, Scan(j));
      var rest := Finds(t, c, j, q);
      AloneOn(s, c, m, rest);
      n := m + rest;
      assert t.cpus[c := Running(q)] == s.cpus[c := Running(q)];
    }
  }

  lemma SwitchNow(s: State, c: nat, q: nat)
    requires Free(s) && c < |s.cpus| && s.cpus[c] == Scan(q) && q < |s.procs| && s.procs[q].state == RUNNABLE
    ensures Alone(s, c, 2) == Switched(s, c, q)
  {
    AloneFive(s, c);
    var t := Go(s, c);
    assert t.procs == s.procs[q := s.procs[q].(lock := c)] && t.cpus == s.cpus[c := Holding(q)];
    var u := Go(t, c);
    assert u.procs == Switched(s, c, q).procs && u.cpus == s.cpus[c := Running(q)];
  }

  /** scheduler runs the next RUNNABLE process around the table, if any. */
  lemma SchedulerFindsNext(s: State, c: nat, i: nat, q: nat)
    requires Free(s) && c < |s.cpus| && s.cpus[c] == Scan(i) && FirstFrom(s, i, q)
    ensures exists n: nat :: Alone(s, c, n) == Switched(s, c, q)
  {
    var n := Finds(s, c, i, q);
  }

  /** A process that is switched to is back from sleep, with lk, or from yield. */
  lemma Returns(s: State, c: nat, q: nat)
    requires Free(s) && c < |s.cpus| && q < |s.procs|
    ensures var x := s.procs[q].(state := RUNNING, on := c, pc := Ready);
            && (s.procs[q].pc == Yielded ==> Alone(Switched(s, c, q), c, 1) == s.Set(q, x).Cpu(c, Running(q)))
            && (forall lk: nat :: s.procs[q].pc.Slept? && s.procs[q].pc.lk == lk < |s.lks| && s.lks[lk] < 0 ==>
                  Alone(Switched(s, c, q), c, 2) == s.Set(q, x.(chan := 0)).Cpu(c, Running(q)).Lk(lk, q))
  {
    hide Step, Alone;
    if s.procs[q].pc == Yielded {
      YieldReturns(s, c, q);
    }
    if s.procs[q].pc.Slept? && s.procs[q].pc.lk < |s.lks| && s.lks[s.procs[q].pc.lk] < 0 {
      SleepReturns(s, c, q, s.procs[q].pc.lk);
    }
  }

  lemma YieldReturns(s: State, c: nat, q: nat)
    requires Free(s) && c < |s.cpus| && q < |s.procs| && s.procs[q].pc == Yielded
    ensures Alone(Switched(s, c, q), c, 1) ==
            s.Set(q, s.procs[q].(state := RUNNING, on := c, pc := Ready)).Cpu(c, Running(q))
  {
    hide Alone, Go, Step;
    AloneFive(Switched(s, c, q), c);
    YieldEnds(Switched(s, c, q), c, q);
    var x := s.procs[q].(state := RUNNING, on := c, pc := Ready);
    assert s.procs[q := Switched(s, c, q).procs[q]][q := x] == s.procs[q := x];
  }

  lemma YieldEnds(s: State, c: nat, q: nat)
    requires c < |s.cpus| && q < |s.procs| && s.cpus[c] == Running(q) && s.procs[q].pc == Yield3
    ensures Go(s, c) == s.Set(q, s.procs[q].(lock := -1, pc := Ready))
  {
  }

  lemma SleepReturns(s: State, c: nat, q: nat, lk: nat)
    requires Free(s) && c < |s.cpus| && q < |s.procs| && s.procs[q].pc.Slept? && s.procs[q].pc.lk == lk
    requires lk < |s.lks| && s.lks[lk] < 0
    ensures Alone(Switched(s, c, q), c, 2) ==
            s.Set(q, s.procs[q].(state := RUNNING, on := c, chan := 0, pc := Ready)).Cpu(c, Running(q)).Lk(lk, q)
  {
    var x := s.procs[q].(state := RUNNING, on := c, chan := 0, pc := Relock(lk));
    AloneFive(Switched(s, c, q), c);
    hide Alone;
    Unlocks(s, c, q, lk);
    Relocks(s.Set(q, x).Cpu(c, Running(q)), c, q, lk);
    hide Go;
    assert s.procs[q := x][q := x.(pc := Ready)] == s.procs[q := x.(pc := Ready)];
  }

  lemma Unlocks(s: State, c: nat, q: nat, lk: nat)
    requires Free(s) && c < |s.cpus| && q < |s.procs| && s.procs[q].pc.Slept? && s.procs[q].pc.lk == lk
    ensures Go(Switched(s, c, q), c) ==
            s.Set(q, s.procs[q].(state := RUNNING, on := c, chan := 0, pc := Relock(lk))).Cpu(c, Running(q))
  {
    var u := Go(Switched(s, c, q), c);
    assert u.procs == s.procs[q := s.procs[q].(state := RUNNING, on := c, chan := 0, pc := Relock(lk))];
  }

  lemma Relocks(s: State, c: nat, q: nat, lk: nat)
    requires c < |s.cpus| && q < |s.procs| && s.cpus[c] == Running(q) && s.procs[q].pc == Relock(lk)
    requires lk < |s.lks| && s.lks[lk] < 0
    ensures Go(s, c) == s.Goto(q, Ready).Lk(lk, q)
  {
  }

  /** The state in which p is back from sleep(chan, lk) on CPU d. */
  function BackWith(s: State, d: nat, p: nat, lk: nat): State
    requires d < |s.cpus| && p < |s.procs| && lk < |s.lks|
  {
    s.Set(p, s.procs[p].(state := RUNNING, on := d, chan := 0, pc := Ready)).Cpu(d, Running(p)).Lk(lk, p)
  }

  /** A sleeper that is woken gets through: w wakes it on one CPU and releases
      lk, and another CPU brings it back from sleep, holding lk again. */
  lemma SleeperReturns(s: State, c: nat, w: nat, d: nat, i: nat, p: nat, chan: nat, lk: nat)
    requires Free(s) && Runs(s, c, w) && lk < |s.lks| && s.lks[lk] == w && d < |s.cpus| && s.cpus[d] == Scan(i)
    requires p < |s.procs| && p != w && s.procs[p].pc == Slept(chan, lk) && s.procs[p].state == SLEEPING && s.procs[p].chan == chan
    requires forall j :: 0 <= j < |s.procs| && j != p && j != w ==>
               s.procs[j].state != RUNNABLE && !(s.procs[j].state == SLEEPING && s.procs[j].chan == chan)
    requires s.procs[w].state == RUNNING
    ensures exists m: nat, n: nat ::
              Alone(Step(Alone(Step(s, c, CallWakeup(chan)), c, m), c, Release(lk)), d, n) == BackWith(s, d, p, lk)
  {
    WakeupWakes(s, c, w, chan);
    var m: nat :| Awakened(s, Alone(Step(s, c, CallWakeup(chan)), c, m), w, chan, 0);
    var t := Alone(Step(s, c, CallWakeup(chan)), c, m);
    AloneAwakened(s, t, w, p, chan);
    var u := Step(t, c, Release(lk));
    assert u == t.Lk(lk, -1);
    hide Step, Alone, Awakened;
    var n := RunsAgain(u, d, i, p, chan, lk);
    assert u.procs[p := BackWith(s, d, p, lk).procs[p]] == s.procs[p := BackWith(s, d, p, lk).procs[p]];
    assert u.lks[lk := p] == s.lks[lk := p];
  }

  lemma AloneAwakened(s: State, t: State, w: nat, p: nat, chan: nat)
    requires Awakened(s, t, w, chan, 0) && w < |s.procs| && s.procs[w].pc == Ready && s.procs[w].state == RUNNING
    requires p < |s.procs| && s.procs[p].state == SLEEPING && s.procs[p].chan == chan
    requires forall j :: 0 <= j < |s.procs| && j != p && j != w ==> !(s.procs[j].state == SLEEPING && s.procs[j].chan == chan)
    ensures t == s.(procs := s.procs[p := s.procs[p].(state := RUNNABLE)])
  {
  }

  lemma RunsAgain(s: State, d: nat, i: nat, p: nat, chan: nat, lk: nat) returns (n: nat)
    requires Free(s) && d < |s.cpus| && s.cpus[d] == Scan(i) && p < |s.procs| && lk < |s.lks| && s.lks[lk] < 0
    requires s.procs[p].pc == Slept(chan, lk) && s.procs[p].state == RUNNABLE
    requires forall j :: 0 <= j < |s.procs| && j != p ==> s.procs[j].state != RUNNABLE
    ensures Alone(s, d, n) == BackWith(s, d, p, lk)
  {
    hide Alone;
    var m := Finds(s, d, i, p);
    SleepReturns(s, d, p, lk);
    AloneOn(s, d, m, 2);
    n := m + 2;
  }
}
