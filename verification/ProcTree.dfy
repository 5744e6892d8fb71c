/** lab2/kernel/proc.c: fork, exit, reparent, wait and kill, as steps of any
    number of processes under wait_lock. */
module ProcTree {

  /** RUNNABLE stands for RUNNING too; SLEEPING is sleeping in wait. */
  datatype PState = UNUSED | USED | RUNNABLE | SLEEPING | ZOMBIE

  /** Where a process is.  Exiting and Scanning go through the table. */
  datatype Pc =
    | None
    | User
    | Forking(child: nat) | Parented(child: nat)
    | Exiting(i: nat) | Waking | Dying | Gone
    | Waiting | Scanning(i: nat, havekids: bool) | Slept

  /** parent is -1 for the null pointer; maker is the process that is still
      creating this one. */
  datatype Proc = Proc(state: PState, pid: nat, parent: int, killed: bool, pc: Pc, maker: nat)

  /** holder is the process that holds wait_lock, or -1; exited and reaped are
      the pids of every exit and every successful wait so far. */
  datatype State = State(procs: seq<Proc>, init: nat, holder: int, nextpid: nat, exited: seq<nat>, reaped: seq<nat>)
  {
    function Set(p: nat, x: Proc): State
      requires p < |procs|
    {
      this.(procs := procs[p := x])
    }

    function Goto(p: nat, pc: Pc): State
      requires p < |procs|
    {
      Set(p, procs[p].(pc := pc))
    }

    /** wakeup(p) for a process that sleeps in wait, on itself. */
    function Wakeup(p: int): State {
      if 0 <= p < |procs| && procs[p].state == SLEEPING then Set(p, procs[p].(state := RUNNABLE, pc := Waiting)) else this
    }
  }

  datatype Action = Continue | Alloc(i: nat) | Fail | CallExit | CallWait | Kill(i: nat) | CopyoutFails

  /** freeproc */
  function Freed(x: Proc): Proc {
    x.(state := UNUSED, pid := 0, parent := -1, killed := false, pc := None)
  }

  /** A step of process p. */
  function Step(s: State, p: nat, a: Action): (t: State)
    ensures |t.procs| == |s.procs| && t.init == s.init
  {
    if p >= |s.procs| then s
    else
      var me := s.procs[p];
      match me.pc
      case User => Call(s, p, a)
      case Forking(i) =>
        if i >= |s.procs| || i == p then s
        else if a == Fail then s.Set(i, Freed(s.procs[i])).Goto(p, User)
        else if s.holder < 0 then s.Set(i, s.procs[i].(parent := p)).Goto(p, Parented(i))
        else s
      case Parented(i) =>
        if i >= |s.procs| || i == p then s
        else s.Set(i, s.procs[i].(state := RUNNABLE, pc := User)).Goto(p, User)
      case Exiting(i) =>
        if i >= |s.procs| then s.Goto(p, Waking)
        else if s.procs[i].parent == p then
          s.Set(i, s.procs[i].(parent := s.init)).Wakeup(s.init).Goto(p, Exiting(i + 1))
        else s.Goto(p, Exiting(i + 1))
      case Waking => s.Wakeup(me.parent).Goto(p, Dying)
      case Dying => s.Set(p, me.(state := ZOMBIE, pc := Gone)).(holder := -1, exited := s.exited + [me.pid])
      case Waiting => if s.holder < 0 then s.Goto(p, Scanning(0, false)).(holder := p) else s
      case Scanning(i, havekids) => Scan(s, p, a, i, havekids)
      case _ => s
  }

  function Call(s: State, p: nat, a: Action): (t: State)
    requires p < |s.procs|
    ensures |t.procs| == |s.procs| && t.init == s.init
  {
    match a
    case Alloc(i) =>
      if i < |s.procs| && i != p && s.procs[i].state == UNUSED then
        s.Set(i, s.procs[i].(state := USED, pid := s.nextpid, maker := p)).Goto(p, Forking(i))
        .(nextpid := s.nextpid + 1)
      else s
    case CallExit => if p != s.init && s.holder < 0 then s.Goto(p, Exiting(0)).(holder := p) else s
    case CallWait => s.Goto(p, Waiting)
    case Kill(i) =>
      if i < |s.procs| then
        var t := s.Wakeup(i);
        t.Set(i, t.procs[i].(killed := true))
      else s
    case _ => s
  }

  /** wait's loop over the table, and what follows it. */
  function Scan(s: State, p: nat, a: Action, i: nat, havekids: bool): (t: State)
    requires p < |s.procs|
    ensures |t.procs| == |s.procs| && t.init == s.init
  {
    if i < |s.procs| then
      var x := s.procs[i];
      if x.parent != p then s.Goto(p, Scanning(i + 1, havekids))
      else if x.state != ZOMBIE then s.Goto(p, Scanning(i + 1, true))
      else if a == CopyoutFails then s.Goto(p, User).(holder := -1)
      else s.Set(i, Freed(x)).Goto(p, User).(holder := -1, reaped := s.reaped + [x.pid])
    else if !havekids || s.procs[p].killed then s.Goto(p, User).(holder := -1)
    else s.Set(p, s.procs[p].(state := SLEEPING, pc := Slept)).(holder := -1)
  }

  function Run(s: State, run: seq<(nat, Action)>): (t: State)
    ensures |t.procs| == |s.procs| && t.init == s.init
  {
    if run == [] then s else var last := run[|run| - 1]; Step(Run(s, run[..|run| - 1]), last.0, last.1)
  }

  /** userinit has made the first process. */
  ghost predicate Boot(s: State) {
    && s.init < |s.procs| && s.holder == -1 && s.nextpid > 1 && s.exited == [] && s.reaped == []
    && forall p :: 0 <= p < |s.procs| ==>
         if p == s.init then s.procs[p] == Proc(RUNNABLE, 1, -1, false, User, s.procs[p].maker)
         else s.procs[p] == Proc(UNUSED, 0, -1, false, None, s.procs[p].maker)
  }

  predicate Live(x: Proc) {
    x.state == RUNNABLE || x.state == SLEEPING
  }

  /** The places in which a process holds wait_lock. */
  predicate HoldsWaitLock(pc: Pc) {
    pc.Exiting? || pc.Waking? || pc.Dying? || pc.Scanning?
  }

  /** The state that goes with where the process is. */
  predicate PlaceOk(x: Proc) {
    match x.state
    case UNUSED => x.pc == None && x.parent == -1
    case USED => x.pc == None
    case ZOMBIE => x.pc == Gone
    case SLEEPING => x.pc == Slept
    case RUNNABLE => x.pc != None && x.pc != Gone && x.pc != Slept
  }

  ghost predicate ProcOk(s: State, p: nat)
    requires p < |s.procs|
  {
    var x := s.procs[p];
    && PlaceOk(x) && (HoldsWaitLock(x.pc) <==> s.holder == p)
    && (p == s.init ==> Live(x) && x.parent == -1 && !x.pc.Exiting? && !x.pc.Waking? && !x.pc.Dying?)
    && -1 <= x.parent < |s.procs| && (x.parent >= 0 ==> Live(s.procs[x.parent]))
    && ((Live(x) || x.state == ZOMBIE) && p != s.init ==> x.parent >= 0)
    && (x.pc.Forking? || x.pc.Parented? ==>
          && x.pc.child < |s.procs| && s.procs[x.pc.child].state == USED && s.procs[x.pc.child].maker == p
          && s.procs[x.pc.child].parent == if x.pc.Parented? then p else -1)
    && (x.state == USED ==>
          x.maker < |s.procs| && (s.procs[x.maker].pc == Forking(p) || s.procs[x.maker].pc == Parented(p)))
    && (x.pc == Dying ==> s.procs[x.parent].state != SLEEPING)
    && (x.state != UNUSED ==> x.pid < s.nextpid && x.pid !in s.reaped)
    && (x.state == ZOMBIE <==> x.state != UNUSED && x.pid in s.exited)
  }

  /** What p knows about the process x under wait_lock. */
  ghost predicate PairOk(s: State, p: nat, x: nat)
    requires p < |s.procs| && x < |s.procs|
  {
    && (s.procs[p].pc.Exiting? && x < s.procs[p].pc.i ==> s.procs[x].parent != p)
    && (s.procs[p].pc == Waking || s.procs[p].pc == Dying ==> s.procs[x].parent != p)
    && (s.procs[p].pc.Scanning? && x < s.procs[p].pc.i && s.procs[x].parent == p ==> s.procs[x].state != ZOMBIE)
    && (s.procs[p].state == SLEEPING && s.procs[x].parent == p ==> s.procs[x].state != ZOMBIE)
    && (p != x && s.procs[p].state != UNUSED && s.procs[x].state != UNUSED ==> s.procs[p].pid != s.procs[x].pid)
  }

  ghost predicate Distinct(pids: seq<nat>) {
    forall i, j :: 0 <= i < j < |pids| ==> pids[i] != pids[j]
  }

  ghost predicate HistoryOk(s: State) {
    && -1 <= s.holder < |s.procs| && s.init < |s.procs|
    && Distinct(s.reaped) && Distinct(s.exited)
    && (forall k :: k in s.reaped ==> k in s.exited) && (forall k :: k in s.exited ==> k < s.nextpid)
  }

  ghost predicate Inv(s: State) {
    && HistoryOk(s)
    && (forall p: nat :: p < |s.procs| ==> ProcOk(s, p))
    && (forall p: nat, x: nat :: p < |s.procs| && x < |s.procs| ==> PairOk(s, p, x))
  }

  lemma BootInv(s: State)
    requires Boot(s)
    ensures Inv(s)
  {
  }
  /** Waking a process that sleeps in wait breaks nothing. */
  lemma WakeupInv(s: State, p: int)
    requires Inv(s) && p < |s.procs|
    ensures Inv(s.Wakeup(p))
  {
    var t := s.Wakeup(p);
    if p >= 0 {
      assert ProcOk(s, p);
    }
    forall q: nat | q < |s.procs| ensures ProcOk(t, q) {
      assert ProcOk(s, q);
    }
    forall q: nat, x: nat | q < |s.procs| && x < |s.procs| ensures PairOk(t, q, x) {
      assert PairOk(s, q, x) && ProcOk(s, q) && ProcOk(s, x);
    }
  }

  lemma KilledInv(s: State, i: nat)
    requires Inv(s) && i < |s.procs|
    ensures Inv(s.Set(i, s.procs[i].(killed := true)))
  {
    var t := s.Set(i, s.procs[i].(killed := true));
    assert ProcOk(s, i);
    forall q: nat | q < |s.procs| ensures ProcOk(t, q) {
      assert ProcOk(s, q);
    }
    forall q: nat, x: nat | q < |s.procs| && x < |s.procs| ensures PairOk(t, q, x) {
      assert PairOk(s, q, x) && ProcOk(s, q) && ProcOk(s, x);
    }
  }

  predicate Plain(pc: Pc) {
    pc == User || pc == Waiting
  }

  lemma PlainInv(s: State, p: nat, pc: Pc)
    requires Inv(s) && p < |s.procs| && Plain(s.procs[p].pc) && Plain(pc)
    ensures Inv(s.Goto(p, pc))
  {
    var t := s.Goto(p, pc);
    assert ProcOk(s, p);
    forall q: nat | q < |s.procs| ensures ProcOk(t, q) {
      assert ProcOk(s, q);
    }
    forall q: nat, x: nat | q < |s.procs| && x < |s.procs| ensures PairOk(t, q, x) {
      assert PairOk(s, q, x) && ProcOk(s, q) && ProcOk(s, x);
    }
  }

  /** acquire(&wait_lock) */
  lemma TakeInv(s: State, p: nat, pc: Pc)
    requires Inv(s) && p < |s.procs| && Plain(s.procs[p].pc) && s.holder < 0
    requires (pc == Exiting(0) && p != s.init) || pc == Scanning(0, false)
    ensures Inv(s.Goto(p, pc).(holder := p))
  {
    var t := s.Goto(p, pc).(holder := p);
    assert ProcOk(s, p);
    forall q: nat | q < |s.procs| ensures ProcOk(t, q) {
      assert ProcOk(s, q);
    }
    forall q: nat, x: nat | q < |s.procs| && x < |s.procs| ensures PairOk(t, q, x) {
      assert PairOk(s, q, x) && ProcOk(s, q) && ProcOk(s, x);
    }
  }

  lemma ReleaseInv(s: State, p: nat)
    requires Inv(s) && p < |s.procs| && s.procs[p].pc.Scanning?
    ensures Inv(s.Goto(p, User).(holder := -1))
  {
    var t := s.Goto(p, User).(holder := -1);
    assert ProcOk(s, p);
    forall q: nat | q < |s.procs| ensures ProcOk(t, q) {
      assert ProcOk(s, q);
    }
    forall q: nat, x: nat | q < |s.procs| && x < |s.procs| ensures PairOk(t, q, x) {
      assert PairOk(s, q, x) && ProcOk(s, q) && ProcOk(s, x);
    }
  }

  lemma PidsBelow(s: State)
    requires Inv(s)
    ensures forall q: nat :: q < |s.procs| && s.procs[q].state != UNUSED ==> s.procs[q].pid < s.nextpid
    ensures forall k :: k in s.reaped || k in s.exited ==> k < s.nextpid
  {
    forall q: nat | q < |s.procs| && s.procs[q].state != UNUSED ensures s.procs[q].pid < s.nextpid {
      assert ProcOk(s, q);
    }
  }

  lemma AllocProcs(s: State, p: nat, i: nat)
    requires Inv(s) && p < |s.procs| && s.procs[p].pc == User && i < |s.procs| && i != p && s.procs[i].state == UNUSED
    ensures var t := Call(s, p, Alloc(i)); HistoryOk(t) && forall q: nat :: q < |s.procs| ==> ProcOk(t, q)
  {
    hide PairOk;
    var t := Call(s, p, Alloc(i));
    assert ProcOk(s, p) && ProcOk(s, i);
    PidsBelow(s);
    forall q: nat | q < |s.procs| ensures ProcOk(t, q) {
      assert ProcOk(s, q);
    }
  }

  lemma AllocInv(s: State, p: nat, i: nat)
    requires Inv(s) && p < |s.procs| && s.procs[p].pc == User && i < |s.procs| && i != p && s.procs[i].state == UNUSED
    ensures Inv(Call(s, p, Alloc(i)))
  {
    hide ProcOk;
    var t := Call(s, p, Alloc(i));
    PidsBelow(s);
    AllocProcs(s, p, i);
    forall q: nat, x: nat | q < |s.procs| && x < |s.procs| ensures PairOk(t, q, x) {
      assert PairOk(s, q, x);
    }
  }

  lemma CallInv(s: State, p: nat, a: Action)
    requires Inv(s) && p < |s.procs| && s.procs[p].pc == User
    ensures Inv(Step(s, p, a))
  {
    match a {
      case Alloc(i) =>
        if i < |s.procs| && i != p && s.procs[i].state == UNUSED {
          AllocInv(s, p, i);
        }
      case CallExit =>
        if p != s.init && s.holder < 0 {
          TakeInv(s, p, Exiting(0));
        }
      case CallWait => PlainInv(s, p, Waiting);
      case Kill(i) =>
        if i < |s.procs| {
          WakeupInv(s, i);
          KilledInv(s.Wakeup(i), i);
        }
      case _ =>
    }
  }

  lemma ForkFailsInv(s: State, p: nat, i: nat)
    requires Inv(s) && p < |s.procs| && s.procs[p].pc == Forking(i) && i < |s.procs| && i != p
    ensures Inv(s.Set(i, Freed(s.procs[i])).Goto(p, User))
  {
    var t := s.Set(i, Freed(s.procs[i])).Goto(p, User);
    assert ProcOk(s, p) && ProcOk(s, i);
    forall q: nat | q < |s.procs| ensures ProcOk(t, q) {
      assert ProcOk(s, q);
    }
    forall q: nat, x: nat | q < |s.procs| && x < |s.procs| ensures PairOk(t, q, x) {
      assert PairOk(s, q, x);
    }
  }

  lemma ForkParentInv(s: State, p: nat, i: nat)
    requires Inv(s) && p < |s.procs| && s.procs[p].pc == Forking(i) && i < |s.procs| && i != p && s.holder < 0
    ensures Inv(s.Set(i, s.procs[i].(parent := p)).Goto(p, Parented(i)))
  {
    var t := s.Set(i, s.procs[i].(parent := p)).Goto(p, Parented(i));
    assert ProcOk(s, p) && ProcOk(s, i);
    forall q: nat | q < |s.procs| ensures ProcOk(t, q) {
      assert ProcOk(s, q);
    }
    forall q: nat, x: nat | q < |s.procs| && x < |s.procs| ensures PairOk(t, q, x) {
      assert PairOk(s, q, x);
    }
  }

  lemma ForkedInv(s: State, p: nat, i: nat)
    requires Inv(s) && p < |s.procs| && s.procs[p].pc == Parented(i) && i < |s.procs| && i != p
    ensures Inv(s.Set(i, s.procs[i].(state := RUNNABLE, pc := User)).Goto(p, User))
  {
    var t := s.Set(i, s.procs[i].(state := RUNNABLE, pc := User)).Goto(p, User);
    assert ProcOk(s, p) && ProcOk(s, i);
    forall q: nat | q < |s.procs| ensures ProcOk(t, q) {
      assert ProcOk(s, q);
    }
    forall q: nat, x: nat | q < |s.procs| && x < |s.procs| ensures PairOk(t, q, x) {
      assert PairOk(s, q, x);
    }
  }

  lemma PassedInv(s: State, p: nat, i: nat)
    requires Inv(s) && p < |s.procs| && s.procs[p].pc == Exiting(i)
    requires i < |s.procs| ==> s.procs[i].parent != p
    ensures Inv(s.Goto(p, if i < |s.procs| then Exiting(i + 1) else Waking))
  {
    var t := s.Goto(p, if i < |s.procs| then Exiting(i + 1) else Waking);
    assert ProcOk(s, p);
    forall q: nat | q < |s.procs| ensures ProcOk(t, q) {
      assert ProcOk(s, q);
    }
    forall q: nat, x: nat | q < |s.procs| && x < |s.procs| ensures PairOk(t, q, x) {
      assert PairOk(s, q, x) && ProcOk(s, q) && ProcOk(s, x);
    }
  }

  /** A child of an exiting process goes to init, which is awake. */
  lemma GivenToInitInv(s: State, p: nat, i: nat)
    requires Inv(s) && p < |s.procs| && s.procs[p].pc == Exiting(i) && i < |s.procs| && s.procs[i].parent == p
    requires s.procs[s.init].state != SLEEPING
    ensures Inv(s.Set(i, s.procs[i].(parent := s.init)))
  {
    var t := s.Set(i, s.procs[i].(parent := s.init));
    assert ProcOk(s, p) && ProcOk(s, s.init) && ProcOk(s, i);
    forall q: nat | q < |s.procs| ensures ProcOk(t, q) {
      assert ProcOk(s, q);
    }
    forall q: nat, x: nat | q < |s.procs| && x < |s.procs| ensures PairOk(t, q, x) {
      assert PairOk(s, q, x) && ProcOk(s, q) && ProcOk(s, x);
    }
  }

  lemma ReparentInv(s: State, p: nat, i: nat)
    requires Inv(s) && p < |s.procs| && s.procs[p].pc == Exiting(i)
    ensures Inv(Step(s, p, Continue))
  {
    assert ProcOk(s, p) && ProcOk(s, s.init);
    if i < |s.procs| && s.procs[i].parent == p {
      WakeupInv(s, s.init);
      var w := s.Wakeup(s.init);
      GivenToInitInv(w, p, i);
      var given := w.Set(i, w.procs[i].(parent := s.init));
      assert given.procs == s.Set(i, s.procs[i].(parent := s.init)).Wakeup(s.init).procs;
      PassedInv(given, p, i);
    } else {
      PassedInv(s, p, i);
    }
  }

  lemma AwakeInv(s: State, p: nat)
    requires Inv(s) && p < |s.procs| && s.procs[p].pc == Waking
    requires 0 <= s.procs[p].parent < |s.procs| ==> s.procs[s.procs[p].parent].state != SLEEPING
    ensures Inv(s.Goto(p, Dying))
  {
    var t := s.Goto(p, Dying);
    assert ProcOk(s, p);
    forall q: nat | q < |s.procs| ensures ProcOk(t, q) {
      assert ProcOk(s, q);
    }
    forall q: nat, x: nat | q < |s.procs| && x < |s.procs| ensures PairOk(t, q, x) {
      assert PairOk(s, q, x) && ProcOk(s, q) && ProcOk(s, x);
    }
  }

  lemma WakingInv(s: State, p: nat)
    requires Inv(s) && p < |s.procs| && s.procs[p].pc == Waking
    ensures Inv(Step(s, p, Continue))
  {
    assert ProcOk(s, p);
    WakeupInv(s, s.procs[p].parent);
    AwakeInv(s.Wakeup(s.procs[p].parent), p);
  }

  lemma DyingInv(s: State, p: nat)
    requires Inv(s) && p < |s.procs| && s.procs[p].pc == Dying
    ensures Inv(s.Set(p, s.procs[p].(state := ZOMBIE, pc := Gone)).(holder := -1, exited := s.exited + [s.procs[p].pid]))
  {
    var t := s.Set(p, s.procs[p].(state := ZOMBIE, pc := Gone)).(holder := -1, exited := s.exited + [s.procs[p].pid]);
    assert ProcOk(s, p);
    forall q: nat | q < |s.procs| ensures ProcOk(t, q) {
      assert ProcOk(s, q);
      assert PairOk(s, p, q);
    }
    forall q: nat, x: nat | q < |s.procs| && x < |s.procs| ensures PairOk(t, q, x) {
      assert PairOk(s, q, x) && ProcOk(s, q) && ProcOk(s, x);
    }
  }

  lemma ReapInv(s: State, p: nat, i: nat)
    requires Inv(s) && p < |s.procs| && s.procs[p].pc.Scanning? && i < |s.procs| && s.procs[i].parent == p
    requires s.procs[i].state == ZOMBIE
    ensures Inv(s.Set(i, Freed(s.procs[i])).(reaped := s.reaped + [s.procs[i].pid]))
  {
    var t := s.Set(i, Freed(s.procs[i])).(reaped := s.reaped + [s.procs[i].pid]);
    assert ProcOk(s, p) && ProcOk(s, i);
    forall q: nat | q < |s.procs| ensures ProcOk(t, q) {
      assert ProcOk(s, q);
      assert PairOk(s, i, q);
    }
    forall q: nat, x: nat | q < |s.procs| && x < |s.procs| ensures PairOk(t, q, x) {
      assert PairOk(s, q, x) && ProcOk(s, q) && ProcOk(s, x);
    }
  }

  lemma NextInv(s: State, p: nat, i: nat, h: bool)
    requires Inv(s) && p < |s.procs| && s.procs[p].pc.Scanning? && s.procs[p].pc.i == i < |s.procs|
    requires s.procs[i].parent == p ==> s.procs[i].state != ZOMBIE
    ensures Inv(s.Goto(p, Scanning(i + 1, h)))
  {
    var t := s.Goto(p, Scanning(i + 1, h));
    assert ProcOk(s, p);
    forall q: nat | q < |s.procs| ensures ProcOk(t, q) {
      assert ProcOk(s, q);
    }
    forall q: nat, x: nat | q < |s.procs| && x < |s.procs| ensures PairOk(t, q, x) {
      assert PairOk(s, q, x) && ProcOk(s, q) && ProcOk(s, x);
    }
  }

  lemma SleepInv(s: State, p: nat)
    requires Inv(s) && p < |s.procs| && s.procs[p].pc.Scanning? && s.procs[p].pc.i >= |s.procs|
    ensures Inv(s.Set(p, s.procs[p].(state := SLEEPING, pc := Slept)).(holder := -1))
  {
    var t := s.Set(p, s.procs[p].(state := SLEEPING, pc := Slept)).(holder := -1);
    assert ProcOk(s, p);
    forall q: nat | q < |s.procs| ensures ProcOk(t, q) {
      assert ProcOk(s, q);
    }
    forall q: nat, x: nat | q < |s.procs| && x < |s.procs| ensures PairOk(t, q, x) {
      assert PairOk(s, q, x) && ProcOk(s, q) && ProcOk(s, x);
    }
  }

  lemma ScanInv(s: State, p: nat, a: Action, i: nat, havekids: bool)
    requires Inv(s) && p < |s.procs| && s.procs[p].pc == Scanning(i, havekids)
    ensures Inv(Scan(s, p, a, i, havekids))
  {
    if i < |s.procs| {
      var x := s.procs[i];
      if x.parent != p {
        NextInv(s, p, i, havekids);
      } else if x.state != ZOMBIE {
        NextInv(s, p, i, true);
      } else if a == CopyoutFails {
        ReleaseInv(s, p);
      } else {
        assert ProcOk(s, p) && ProcOk(s, i) && i != p;
        ReapInv(s, p, i);
        var r := s.Set(i, Freed(x)).(reaped := s.reaped + [x.pid]);
        ReleaseInv(r, p);
        assert r.Goto(p, User).(holder := -1) == Scan(s, p, a, i, havekids);
      }
    } else if !havekids || s.procs[p].killed {
      ReleaseInv(s, p);
    } else {
      SleepInv(s, p);
    }
  }

  lemma StepInv(s: State, p: nat, a: Action)
    requires Inv(s)
    ensures Inv(Step(s, p, a))
  {
    hide Inv, Scan, Call;
    if p < |s.procs| {
      match s.procs[p].pc {
        case User => CallInv(s, p, a);
        case Forking(i) =>
          if i < |s.procs| && i != p {
            if a == Fail {
              ForkFailsInv(s, p, i);
            } else if s.holder < 0 {
              ForkParentInv(s, p, i);
            }
          }
        case Parented(i) =>
          if i < |s.procs| && i != p {
            ForkedInv(s, p, i);
          }
        case Exiting(i) => ReparentInv(s, p, i);
        case Waking => WakingInv(s, p);
        case Dying => DyingInv(s, p);
        case Waiting =>
          if s.holder < 0 {
            TakeInv(s, p, Scanning(0, false));
          }
        case Scanning(i, havekids) => ScanInv(s, p, a, i, havekids);
        case _ =>
      }
    }
  }

  lemma {:induction false} AlwaysInv(s: State, run: seq<(nat, Action)>)
    requires Boot(s)
    ensures Inv(Run(s, run))
  {
    if run == [] {
      BootInv(s);
    } else {
      AlwaysInv(s, run[..|run| - 1]);
      StepInv(Run(s, run[..|run| - 1]), run[|run| - 1].0, run[|run| - 1].1);
    }
  }

  /** In every run of any number of processes, whenever wait_lock is free: a
      ZOMBIE has no children, every live process but init has a live parent,
      and nobody sleeps in wait while it has a ZOMBIE child. */
  lemma TreeIsSafe(s: State, run: seq<(nat, Action)>, p: nat)
    requires Boot(s) && p < |s.procs|
    ensures var t := Run(s, run);
            t.holder == -1 ==>
              && (t.procs[p].state == ZOMBIE ==> forall x: nat :: x < |t.procs| ==> t.procs[x].parent != p)
              && (Live(t.procs[p]) && p != t.init ==>
                    0 <= t.procs[p].parent < |t.procs| && Live(t.procs[t.procs[p].parent]))
              && (t.procs[p].state == SLEEPING ==>
                    forall x: nat :: x < |t.procs| && t.procs[x].parent == p ==> t.procs[x].state != ZOMBIE)
  {
    hide Run;
    var t := Run(s, run);
    AlwaysInv(s, run);
    assert ProcOk(t, p);
    forall x: nat | x < |t.procs|
      ensures t.procs[p].state == ZOMBIE ==> t.procs[x].parent != p
      ensures t.procs[p].state == SLEEPING && t.procs[x].parent == p ==> t.procs[x].state != ZOMBIE
    {
      assert ProcOk(t, x) && PairOk(t, p, x);
    }
  }

  /** In every run no process is reaped twice, none before it has exited, and
      every process that has exited is a ZOMBIE until it is reaped. */
  lemma ReapedOnce(s: State, run: seq<(nat, Action)>)
    requires Boot(s)
    ensures var t := Run(s, run);
            && Distinct(t.reaped) && Distinct(t.exited) && (forall k :: k in t.reaped ==> k in t.exited)
            && forall p: nat :: p < |t.procs| && t.procs[p].state != UNUSED ==>
                 && t.procs[p].pid !in t.reaped
                 && (t.procs[p].state == ZOMBIE <==> t.procs[p].pid in t.exited)
  {
    hide Run;
    var t := Run(s, run);
    AlwaysInv(s, run);
    forall p: nat | p < |t.procs| && t.procs[p].state != UNUSED
      ensures t.procs[p].pid !in t.reaped && (t.procs[p].state == ZOMBIE <==> t.procs[p].pid in t.exited)
    {
      assert ProcOk(t, p);
    }
  }

  /** The next n steps of p alone. */
  function Alone(p: nat, a: Action, n: nat): (r: seq<(nat, Action)>)
    ensures |r| == n && forall k :: 0 <= k < n ==> r[k] == (p, a)
  {
    seq(n, _ => (p, a))
  }

  lemma OneMore(s: State, p: nat, a: Action, n: nat)
    ensures Run(s, Alone(p, a, n + 1)) == Step(Run(s, Alone(p, a, n)), p, a)
  {
    assert Alone(p, a, n + 1)[..n] == Alone(p, a, n);
  }

  ghost predicate IsKid(s: State, p: nat, x: nat) {
    x < |s.procs| && s.procs[x].parent == p
  }

  ghost predicate KidBefore(s: State, p: nat, i: nat) {
    exists x: nat :: x < i && IsKid(s, p, x)
  }

  ghost predicate DeadKid(s: State, p: nat, x: nat) {
    IsKid(s, p, x) && s.procs[x].state == ZOMBIE
  }

  /** As s, but that p has let go of wait_lock and is at pc. */
  ghost predicate LeftAt(s: State, t: State, p: nat, state: PState, pc: Pc)
    requires p < |s.procs|
  {
    t == s.(procs := s.procs[p := s.procs[p].(state := state, pc := pc)], holder := -1)
  }

  /** As s, but that p is back from wait with the pid of its child x, whose
      slot is free. */
  ghost predicate Reaped(s: State, t: State, p: nat, x: nat)
    requires p < |s.procs|
  {
    && DeadKid(s, p, x) && x != p
    && |t.procs| == |s.procs| && t.init == s.init && t.nextpid == s.nextpid && t.exited == s.exited
    && t.holder == -1 && t.reaped == s.reaped + [s.procs[x].pid]
    && t.procs[p] == s.procs[p].(pc := User)
    && t.procs[x].state == UNUSED && t.procs[x].pid == 0 && t.procs[x].parent == -1 && !t.procs[x].killed
    && t.procs[x].pc == None
    && forall q :: 0 <= q < |s.procs| && q != p && q != x ==> t.procs[q] == s.procs[q]
  }

  /** What wait comes to: it reaps a ZOMBIE child if there is one and copyout
      works; it comes back without, if copyout fails, or when there is no ZOMBIE
      child and it has no child at all or is killed; otherwise it sleeps. */
  ghost predicate Waited(s: State, t: State, p: nat, a: Action)
    requires p < |s.procs|
  {
    if exists x: nat :: DeadKid(s, p, x) then
      if a == CopyoutFails then LeftAt(s, t, p, s.procs[p].state, User) else exists x: nat :: Reaped(s, t, p, x)
    else if s.procs[p].killed || forall x: nat :: !IsKid(s, p, x) then
      LeftAt(s, t, p, s.procs[p].state, User)
    else
      LeftAt(s, t, p, SLEEPING, Slept)
  }

  /** From the moment at which it has wait_lock, by p's own steps. */
  lemma WaitMeans(s: State, p: nat, a: Action)
    requires Inv(s) && p < |s.procs| && s.procs[p].pc == Scanning(0, false)
    ensures exists n: nat :: n <= |s.procs| + 1 && Waited(s, Run(s, Alone(p, a, n)), p, a)
  {
    hide Run, Inv, Waited, Alone;
    var n;
    if exists x: nat :: DeadKid(s, p, x) {
      n := WaitReaps(s, p, a);
    } else {
      n := WaitLeaves(s, p, a);
    }
  }

  lemma WaitReaps(s: State, p: nat, a: Action) returns (n: nat)
    requires Inv(s) && p < |s.procs| && s.procs[p].pc == Scanning(0, false) && exists x: nat :: DeadKid(s, p, x)
    ensures n <= |s.procs| && Waited(s, Run(s, Alone(p, a, n)), p, a)
  {
    hide Run, Inv, Step, Waited, Alone, KidBefore;
    var x := FirstDead(s, p, |s.procs|);
    Scanned(s, p, a, x);
    OneMore(s, p, a, x);
    NotSelf(s, p, x);
    ScanReaps(s, p, a, x, KidBefore(s, p, x));
    n := x + 1;
  }

  lemma WaitLeaves(s: State, p: nat, a: Action) returns (n: nat)
    requires p < |s.procs| && s.procs[p].pc == Scanning(0, false) && forall x: nat :: !DeadKid(s, p, x)
    ensures n <= |s.procs| + 1 && Waited(s, Run(s, Alone(p, a, n)), p, a)
  {
    assert KidBefore(s, p, |s.procs|) <==> exists x: nat :: IsKid(s, p, x);
    hide Run, Step, Waited, Alone, KidBefore;
    Scanned(s, p, a, |s.procs|);
    OneMore(s, p, a, |s.procs|);
    ScanLeaves(s, p, a, KidBefore(s, p, |s.procs|));
    n := |s.procs| + 1;
  }

  lemma ScanReaps(s: State, p: nat, a: Action, x: nat, havekids: bool)
    requires p < |s.procs| && DeadKid(s, p, x) && x != p
    ensures Waited(s, Step(s.Goto(p, Scanning(x, havekids)), p, a), p, a)
  {
    var t := Step(s.Goto(p, Scanning(x, havekids)), p, a);
    assert a != CopyoutFails ==> Reaped(s, t, p, x);
  }

  lemma ScanLeaves(s: State, p: nat, a: Action, havekids: bool)
    requires p < |s.procs| && (forall x: nat :: !DeadKid(s, p, x)) && (havekids <==> exists x: nat :: IsKid(s, p, x))
    ensures Waited(s, Step(s.Goto(p, Scanning(|s.procs|, havekids)), p, a), p, a)
  {
  }

  lemma ScanPasses(s: State, p: nat, a: Action, i: nat, havekids: bool)
    requires p < |s.procs| && i < |s.procs| && !DeadKid(s, p, i)
    ensures Step(s.Goto(p, Scanning(i, havekids)), p, a) == s.Goto(p, Scanning(i + 1, havekids || IsKid(s, p, i)))
  {
  }

  lemma NotSelf(s: State, p: nat, x: nat)
    requires Inv(s) && p < |s.procs| && s.procs[p].pc.Scanning? && DeadKid(s, p, x)
    ensures x != p && s.procs[p].state == RUNNABLE
  {
    assert ProcOk(s, p);
  }

  lemma {:induction false} FirstDead(s: State, p: nat, n: nat) returns (x: nat)
    requires n <= |s.procs| && exists y: nat :: y < n && DeadKid(s, p, y)
    ensures x < n && DeadKid(s, p, x) && forall y: nat :: y < x ==> !DeadKid(s, p, y)
  {
    if exists y: nat :: y < n - 1 && DeadKid(s, p, y) {
      x := FirstDead(s, p, n - 1);
    } else {
      x := n - 1;
    }
  }

  /** wait's loop, up to slot i, when there is no ZOMBIE child before. */
  lemma {:induction false} Scanned(s: State, p: nat, a: Action, i: nat)
    requires p < |s.procs| && s.procs[p].pc == Scanning(0, false) && i <= |s.procs|
    requires forall x: nat :: x < i ==> !DeadKid(s, p, x)
    ensures Run(s, Alone(p, a, i)) == s.Goto(p, Scanning(i, KidBefore(s, p, i)))
  {
    hide Step;
    if i == 0 {
      assert !KidBefore(s, p, i) && s.procs[p := s.procs[p].(pc := Scanning(0, false))] == s.procs;
    } else {
      assert KidBefore(s, p, i) <==> KidBefore(s, p, i - 1) || IsKid(s, p, i - 1);
      hide KidBefore;
      Scanned(s, p, a, i - 1);
      OneMore(s, p, a, i - 1);
      ScanPasses(s, p, a, i - 1, KidBefore(s, p, i - 1));
    }
  }

  /** wait's beginning, and its beginning over after a wakeup. */
  lemma WaitBegins(s: State, p: nat)
    requires p < |s.procs| && s.holder < 0
    ensures s.procs[p].pc == User ==>
              Step(Step(s, p, CallWait), p, Continue) == s.Goto(p, Scanning(0, false)).(holder := p)
    ensures s.procs[p].pc == Waiting ==> Step(s, p, Continue) == s.Goto(p, Scanning(0, false)).(holder := p)
  {
  }

  /** fork with a free slot i, by p's own steps: the child is there, with a pid
      of its own, p its parent and ready to run; nothing else changes.  When
      uvmcopy fails, only a pid is gone. */
  lemma ForkMeans(s: State, p: nat, i: nat)
    requires p < |s.procs| && s.procs[p].pc == User && i < |s.procs| && i != p && s.procs[i].state == UNUSED
    requires s.holder < 0
    ensures var t := Run(s, [(p, Alloc(i)), (p, Continue), (p, Continue)]);
            && t.procs == s.procs[i := s.procs[i].(state := RUNNABLE, pid := s.nextpid, parent := p, maker := p, pc := User)]
            && t.nextpid == s.nextpid + 1 && t.holder == s.holder && t.reaped == s.reaped && t.exited == s.exited
    ensures var t := Run(s, [(p, Alloc(i)), (p, Fail)]);
            && |t.procs| == |s.procs| && t.procs[i].state == UNUSED && t.procs[i].parent == -1
            && (forall q :: 0 <= q < |s.procs| && q != i ==> t.procs[q] == s.procs[q])
            && t.nextpid == s.nextpid + 1 && t.holder == s.holder && t.reaped == s.reaped && t.exited == s.exited
  {
    var run, failing := [(p, Alloc(i)), (p, Continue), (p, Continue)], [(p, Alloc(i)), (p, Fail)];
    assert run[..2] == [(p, Alloc(i)), (p, Continue)] && run[..2][..1] == [(p, Alloc(i))] == failing[..1];
    assert [(p, Alloc(i))][..0] == [];
    hide Run;
    RunOne(s, (p, Alloc(i)));
    RunTwo(s, run[..2]);
    RunTwo(s, failing);
    RunLast(s, run);
    var made := Step(s, p, Alloc(i));
    assert made.procs[p].pc == Forking(i);
  }

  function Awake(x: Proc): Proc {
    if x.state == SLEEPING then x.(state := RUNNABLE, pc := Waiting) else x
  }

  /** Process x when p's children before slot i have been given to init, which
      is awake if there were any. */
  ghost function GivenAway(s: State, p: nat, i: nat, x: nat): Proc
    requires x < |s.procs|
  {
    var y := if x < i && IsKid(s, p, x) then s.procs[x].(parent := s.init) else s.procs[x];
    if x == s.init && exists k: nat :: k < i && IsKid(s, p, k) then Awake(y) else y
  }

  ghost predicate Given(s: State, t: State, p: nat, i: nat, pc: Pc)
    requires p < |s.procs|
  {
    && t == s.(procs := t.procs) && |t.procs| == |s.procs|
    && t.procs[p] == GivenAway(s, p, i, p).(pc := pc)
    && forall x: nat :: x < |s.procs| && x != p ==> t.procs[x] == GivenAway(s, p, i, x)
  }

  /** exit, by p's own steps from the moment at which it has wait_lock: p is a
      ZOMBIE, its children are init's, and its parent is awake, and init if it
      got any; nothing else changes. */
  lemma ExitMeans(s: State, p: nat)
    requires p < |s.procs| && s.procs[p].pc == Exiting(0) && s.holder == p && s.init < |s.procs| && p != s.init
    ensures var t := Run(s, Alone(p, Continue, |s.procs| + 3));
            var parent := GivenAway(s, p, |s.procs|, p).parent;
            && t == s.(procs := t.procs, holder := -1, exited := s.exited + [s.procs[p].pid])
            && |t.procs| == |s.procs| && t.procs[p].state == ZOMBIE && t.procs[p].pid == s.procs[p].pid
            && t.procs[p].parent == parent
            && forall x: nat :: x < |s.procs| && x != p ==>
                 var y := GivenAway(s, p, |s.procs|, x); t.procs[x] == if x == parent then Awake(y) else y
  {
    var n := |s.procs|;
    hide Run;
    GivenUpTo(s, p, n);
    OneMore(s, p, Continue, n);
    OneMore(s, p, Continue, n + 1);
    OneMore(s, p, Continue, n + 2);
    var t := Run(s, Alone(p, Continue, n));
    var dying := Step(Step(t, p, Continue), p, Continue);
    assert dying.procs[p].pc == Dying;
  }

  lemma {:induction false} GivenUpTo(s: State, p: nat, i: nat)
    requires p < |s.procs| && s.procs[p].pc == Exiting(0) && s.init < |s.procs| && p != s.init && i <= |s.procs|
    ensures Given(s, Run(s, Alone(p, Continue, i)), p, i, Exiting(i))
  {
    if i > 0 {
      GivenUpTo(s, p, i - 1);
      OneMore(s, p, Continue, i - 1);
      GivenOne(s, Run(s, Alone(p, Continue, i - 1)), p, i - 1);
    }
  }

  lemma GivenOne(s: State, t: State, p: nat, i: nat)
    requires p < |s.procs| && s.init < |s.procs| && p != s.init && i < |s.procs| && Given(s, t, p, i, Exiting(i))
    requires s.procs[p].pc == Exiting(0)
    ensures Given(s, Step(t, p, Continue), p, i + 1, Exiting(i + 1))
  {
    var u := Step(t, p, Continue);
    assert t.procs[i].parent == s.procs[i].parent;
    if s.procs[i].parent == p {
      assert IsKid(s, p, i);
    } else {
      assert forall k: nat :: k < i + 1 && IsKid(s, p, k) ==> k < i;
    }
    assert u.procs[p] == GivenAway(s, p, i + 1, p).(pc := Exiting(i + 1));
    forall x: nat | x < |s.procs| && x != p ensures u.procs[x] == GivenAway(s, p, i + 1, x) {
      assert t.procs[x] == GivenAway(s, p, i, x);
    }
  }

  /** kill of process i: it is marked, and out of its sleep. */
  lemma KillMeans(s: State, p: nat, i: nat)
    requires p < |s.procs| && s.procs[p].pc == User && i < |s.procs|
    ensures Step(s, p, Kill(i)) == s.(procs := s.procs[i := Awake(s.procs[i]).(killed := true)])
  {
  }

  lemma RunLast(s: State, run: seq<(nat, Action)>)
    requires run != []
    ensures var last := run[|run| - 1]; Run(s, run) == Step(Run(s, run[..|run| - 1]), last.0, last.1)
  {
  }

  lemma RunOne(s: State, a: (nat, Action))
    ensures Run(s, [a]) == Step(s, a.0, a.1)
  {
    assert [a][..0] == [];
  }

  lemma RunTwo(s: State, run: seq<(nat, Action)>)
    requires |run| == 2
    ensures Run(s, run) == Step(Step(s, run[0].0, run[0].1), run[1].0, run[1].1)
  {
    assert run[..1] == [run[0]];
    RunOne(s, run[0]);
  }
}
