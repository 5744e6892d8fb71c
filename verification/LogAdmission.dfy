/** lab2/kernel/log.c: begin_op, log_write and end_op as steps of any number of
    processes under log.lock. Each operation writes at most `cap` different
    blocks; the log is as large as mkfs makes it. */
module LogAdmission {
  import opened LogFormat
  import opened Counting

  /** Where a process is. Trying is the loop of begin_op, Inside is between
      begin_op and end_op, with the blocks the operation has written so far;
      the last operation to end commits, outside the lock. */
  datatype Phase = Outside | Trying | Asleep | Inside(wrote: set<nat>) | CommitRunning | CommitDone

  datatype Panic = Fine | TooBig | OutsideTrans | LogCommitting

  datatype State = State(outstanding: int, committing: bool, logged: seq<nat>, procs: seq<Phase>, panic: Panic)
  {
    function Goto(p: nat, to: Phase): State
      requires p < |procs|
    {
      this.(procs := procs[p := to])
    }

    /** wakeup(&log) */
    function WakeAll(): State {
      this.(procs := Woken(procs))
    }
  }

  function Woken(procs: seq<Phase>): (r: seq<Phase>)
    ensures |r| == |procs|
    ensures forall p :: 0 <= p < |r| ==> r[p] == if procs[p].Asleep? then Trying else procs[p]
  {
    if procs == [] then [] else
      Woken(procs[..|procs| - 1]) + [if procs[|procs| - 1].Asleep? then Trying else procs[|procs| - 1]]
  }

  datatype Action = Call | Test | Write(b: nat) | End | Install | Finish

  /** begin_op's test: it fails while a commit runs or when this operation
      might exhaust the log. */
  predicate MustWait(s: State) {
    s.committing || |s.logged| + (s.outstanding + 1) * MAXOPBLOCKS > LOGSIZE
  }

  function LogWrite(s: State, b: nat): State {
    if |s.logged| >= LOGSIZE - 1 then s.(panic := TooBig)
    else if s.outstanding < 1 then s.(panic := OutsideTrans)
    else if b in s.logged then s
    else s.(logged := s.logged + [b])
  }

  function EndOp(s: State, p: nat): State
    requires p < |s.procs|
  {
    var t := s.(outstanding := s.outstanding - 1);
    if t.committing then t.(panic := LogCommitting)
    else if t.outstanding == 0 then t.(committing := true).Goto(p, CommitRunning)
    else t.Goto(p, Outside).WakeAll()
  }

  /** Process p does a; nothing happens if it is not where it can. */
  function Step(cap: nat, s: State, p: nat, a: Action): (t: State)
    ensures |t.procs| == |s.procs|
  {
    if s.panic != Fine || p >= |s.procs| then s
    else match (s.procs[p], a)
      case (Outside, Call) => s.Goto(p, Trying)
      case (Trying, Test) =>
        if MustWait(s) then s.Goto(p, Asleep)
        else s.(outstanding := s.outstanding + 1).Goto(p, Inside({}))
      case (Inside(wrote), Write(b)) =>
        if |wrote + {b}| > cap then s
        else var t := LogWrite(s, b); if t.panic == Fine then t.Goto(p, Inside(wrote + {b})) else t
      case (Inside(_), End) => EndOp(s, p)
      case (CommitRunning, Install) => s.(logged := []).Goto(p, CommitDone)
      case (CommitDone, Finish) => s.(committing := false).Goto(p, Outside).WakeAll()
      case _ => s
  }

  function Run(cap: nat, s: State, run: seq<(nat, Action)>): (t: State)
    ensures |t.procs| == |s.procs|
  {
    if run == [] then s
    else var last := run[|run| - 1]; Step(cap, Run(cap, s, run[..|run| - 1]), last.0, last.1)
  }

  function Idle(n: nat): (procs: seq<Phase>)
    ensures |procs| == n && forall p :: 0 <= p < n ==> procs[p] == Outside
  {
    if n == 0 then [] else Idle(n - 1) + [Outside]
  }

  function Start(n: nat): State {
    State(0, false, [], Idle(n), Fine)
  }

  const InOp := (ph: Phase) => if ph.Inside? then 1 else 0

  const InCommit := (ph: Phase) => if ph.CommitRunning? || ph.CommitDone? then 1 else 0

  /** What an operation of at most nine blocks may still add. */
  const Unused := (ph: Phase) => if ph.Inside? && |ph.wrote| <= 9 then 9 - |ph.wrote| else 0

  /** What begin_op has reserved for an operation and it has not used. */
  const Budget := (ph: Phase) => if ph.Inside? && |ph.wrote| <= MAXOPBLOCKS then MAXOPBLOCKS - |ph.wrote| else 0

  ghost predicate WroteLogged(s: State, cap: nat) {
    forall p :: 0 <= p < |s.procs| && s.procs[p].Inside? ==>
      |s.procs[p].wrote| <= cap && forall b :: b in s.procs[p].wrote ==> b in s.logged
  }

  /** Nobody sleeps whose test would succeed now. */
  ghost predicate SleepersMustWait(s: State) {
    forall p :: 0 <= p < |s.procs| && s.procs[p].Asleep? ==> MustWait(s)
  }

  ghost predicate Inv(cap: nat, s: State) {
    && s.outstanding == Total(s.procs, InOp)
    && Total(s.procs, InCommit) == (if s.committing then 1 else 0)
    && (s.committing ==> s.outstanding == 0)
    && (s.outstanding == 0 && !s.committing ==> s.logged == [])
    && (forall p :: 0 <= p < |s.procs| && s.procs[p].CommitDone? ==> s.logged == [])
    && WroteLogged(s, cap)
    && SleepersMustWait(s)
    && (s.panic == Fine || s.panic == TooBig)
    && (cap <= MAXOPBLOCKS ==> |s.logged| + Total(s.procs, Budget) <= LOGSIZE)
    && (cap <= 9 ==> |s.logged| + Total(s.procs, Unused) <= 28 && s.panic == Fine)
  }

  lemma Moved(s: State, p: nat, to: Phase)
    requires p < |s.procs|
    ensures Total(s.procs[p := to], InOp) == Total(s.procs, InOp) - InOp(s.procs[p]) + InOp(to)
    ensures Total(s.procs[p := to], InCommit) == Total(s.procs, InCommit) - InCommit(s.procs[p]) + InCommit(to)
    ensures Total(s.procs[p := to], Unused) == Total(s.procs, Unused) - Unused(s.procs[p]) + Unused(to)
    ensures Total(s.procs[p := to], Budget) == Total(s.procs, Budget) - Budget(s.procs[p]) + Budget(to)
    ensures Total(s.procs, InOp) >= InOp(s.procs[p]) && Total(s.procs, InCommit) >= InCommit(s.procs[p])
    ensures Total(s.procs, Unused) >= Unused(s.procs[p]) && Total(s.procs, Budget) >= Budget(s.procs[p])
  {
    TotalUpdate(s.procs, InOp, p, to);
    TotalUpdate(s.procs, InCommit, p, to);
    TotalUpdate(s.procs, Unused, p, to);
    TotalUpdate(s.procs, Budget, p, to);
    TotalAtLeast(s.procs, InOp, p);
    TotalAtLeast(s.procs, InCommit, p);
    TotalAtLeast(s.procs, Unused, p);
    TotalAtLeast(s.procs, Budget, p);
  }

  lemma WokenTotals(procs: seq<Phase>)
    ensures Total(Woken(procs), InOp) == Total(procs, InOp)
    ensures Total(Woken(procs), InCommit) == Total(procs, InCommit)
    ensures Total(Woken(procs), Unused) == Total(procs, Unused)
    ensures Total(Woken(procs), Budget) == Total(procs, Budget)
  {
    TotalSame(procs, Woken(procs), InOp);
    TotalSame(procs, Woken(procs), InCommit);
    TotalSame(procs, Woken(procs), Unused);
    TotalSame(procs, Woken(procs), Budget);
  }

  /** Each open operation can add at most nine blocks, or what is reserved. */
  lemma {:induction false} UnusedAtMost(procs: seq<Phase>)
    ensures Total(procs, Unused) <= 9 * Total(procs, InOp)
    ensures Total(procs, Budget) <= MAXOPBLOCKS * Total(procs, InOp)
  {
    if procs != [] {
      UnusedAtMost(procs[..|procs| - 1]);
    }
  }

  lemma WriteKeepsInv(cap: nat, s: State, p: nat, b: nat)
    requires Inv(cap, s) && s.panic == Fine && p < |s.procs| && s.procs[p].Inside?
    ensures Inv(cap, Step(cap, s, p, Write(b)))
  {
    hide Total, Woken;
    var wrote := s.procs[p].wrote;
    Moved(s, p, Inside(wrote + {b}));
    forall q | 0 <= q < |s.procs| ensures !s.procs[q].CommitDone? {
      TotalAtLeast(s.procs, InCommit, q);
    }
    if b in wrote {
      assert wrote + {b} == wrote;
    } else {
      assert |wrote + {b}| == |wrote| + 1;
    }
  }

  lemma TestKeepsInv(cap: nat, s: State, p: nat)
    requires Inv(cap, s) && s.panic == Fine && p < |s.procs| && s.procs[p].Trying?
    ensures Inv(cap, Step(cap, s, p, Test))
  {
    hide Total, Woken;
    Moved(s, p, if MustWait(s) then Asleep else Inside({}));
    UnusedAtMost(s.procs);
  }

  lemma EndKeepsInv(cap: nat, s: State, p: nat)
    requires Inv(cap, s) && s.panic == Fine && p < |s.procs| && s.procs[p].Inside?
    ensures Inv(cap, Step(cap, s, p, End))
  {
    hide Total, Woken;
    var last := s.outstanding == 1;
    Moved(s, p, if last then CommitRunning else Outside);
    WokenTotals(s.procs[p := Outside]);
  }

  lemma InstallKeepsInv(cap: nat, s: State, p: nat)
    requires Inv(cap, s) && s.panic == Fine && p < |s.procs| && s.procs[p].CommitRunning?
    ensures Inv(cap, Step(cap, s, p, Install))
  {
    hide Total, Woken;
    Moved(s, p, CommitDone);
    forall q | 0 <= q < |s.procs| ensures !s.procs[q].Inside? {
      TotalAtLeast(s.procs, InOp, q);
    }
  }

  lemma FinishKeepsInv(cap: nat, s: State, p: nat)
    requires Inv(cap, s) && s.panic == Fine && p < |s.procs| && s.procs[p].CommitDone?
    ensures Inv(cap, Step(cap, s, p, Finish))
  {
    hide Total, Woken;
    Moved(s, p, Outside);
    WokenTotals(s.procs[p := Outside]);
  }

  lemma StepKeepsInv(cap: nat, s: State, p: nat, a: Action)
    requires Inv(cap, s)
    ensures Inv(cap, Step(cap, s, p, a))
  {
    if s.panic == Fine && p < |s.procs| {
      match (s.procs[p], a)
      case (Outside, Call) => Moved(s, p, Trying);
      case (Trying, Test) => TestKeepsInv(cap, s, p);
      case (Inside(_), Write(b)) => WriteKeepsInv(cap, s, p, b);
      case (Inside(_), End) => EndKeepsInv(cap, s, p);
      case (CommitRunning, Install) => InstallKeepsInv(cap, s, p);
      case (CommitDone, Finish) => FinishKeepsInv(cap, s, p);
      case _ =>
    }
  }

  lemma StartInv(cap: nat, n: nat)
    ensures Inv(cap, Start(n))
  {
    hide Total, Idle;
    TotalZero(Idle(n), InOp);
    TotalZero(Idle(n), InCommit);
    TotalZero(Idle(n), Unused);
    TotalZero(Idle(n), Budget);
  }

  /** Every reachable state satisfies the invariant. */
  lemma {:induction false} AlwaysInv(cap: nat, n: nat, run: seq<(nat, Action)>)
    ensures Inv(cap, Run(cap, Start(n), run))
  {
    if run == [] {
      StartInv(cap, n);
    } else {
      var last := run[|run| - 1];
      AlwaysInv(cap, n, run[..|run| - 1]);
      StepKeepsInv(cap, Run(cap, Start(n), run[..|run| - 1]), last.0, last.1);
    }
  }

  /** In every interleaving of any number of processes, for any cap: while a
      commit runs no operation is open, and only "too big" can panic; whoever
      sleeps in begin_op must wait, and somebody is there to wake it. When no
      operation writes more than begin_op reserves for it, the log has room for
      what is logged and all that is still reserved. */
  lemma AdmissionIsSafe(cap: nat, n: nat, run: seq<(nat, Action)>)
    ensures var s := Run(cap, Start(n), run);
            && (s.panic == Fine || s.panic == TooBig)
            && (s.committing ==> forall p :: 0 <= p < n ==> !s.procs[p].Inside?)
            && (cap <= MAXOPBLOCKS ==> |s.logged| + Total(s.procs, Budget) <= LOGSIZE)
            && forall p :: 0 <= p < n && s.procs[p].Asleep? ==>
                 && MustWait(s)
                 && exists q :: 0 <= q < n && (s.procs[q].Inside? || s.procs[q].CommitRunning? || s.procs[q].CommitDone?)
  {
    hide Run, Total;
    var s := Run(cap, Start(n), run);
    AlwaysInv(cap, n, run);
    if s.committing {
      forall p | 0 <= p < n ensures !s.procs[p].Inside? {
        TotalAtLeast(s.procs, InOp, p);
      }
      var q := TotalPositive(s.procs, InCommit);
    } else if s.outstanding > 0 {
      var q := TotalPositive(s.procs, InOp);
    }
  }

  /** p writes the blocks from, from + 1, ... */
  function Writes(p: nat, from: nat, k: nat): seq<(nat, Action)> {
    if k == 0 then [] else Writes(p, from, k - 1) + [(p, Write(from + k - 1))]
  }

  ghost predicate Wrote(s: State, t: State, p: nat, from: nat, k: nat)
    requires p < |s.procs|
  {
    && |t.procs| == |s.procs| && t.panic == s.panic && t.outstanding == s.outstanding && |t.logged| == |s.logged| + k
    && (forall b :: b in t.logged ==> b < from + k)
    && t.procs[p].Inside? && |t.procs[p].wrote| == k && (forall b :: b in t.procs[p].wrote ==> b < from + k)
    && forall q :: 0 <= q < |s.procs| && q != p ==> t.procs[q] == s.procs[q]
  }

  lemma {:induction false} WritesAdd(cap: nat, s: State, p: nat, from: nat, k: nat)
    requires p < |s.procs| && s.procs[p] == Inside({}) && s.panic == Fine && s.outstanding > 0
    requires k <= cap && |s.logged| + k <= LOGSIZE - 1 && forall b :: b in s.logged ==> b < from
    ensures Wrote(s, Run(cap, s, Writes(p, from, k)), p, from, k)
  {
    hide Run, Total, LogWrite, Wrote;
    if k > 0 {
      WritesAdd(cap, s, p, from, k - 1);
      RunOn(cap, s, Writes(p, from, k - 1), [(p, Write(from + k - 1))]);
      OneWrite(cap, s, Run(cap, s, Writes(p, from, k - 1)), p, from, k - 1);
    } else {
      NothingWritten(cap, s, p, from);
    }
  }

  lemma NothingWritten(cap: nat, s: State, p: nat, from: nat)
    requires p < |s.procs| && s.procs[p] == Inside({}) && forall b :: b in s.logged ==> b < from
    ensures Wrote(s, Run(cap, s, []), p, from, 0)
  {
  }

  /** One more block, which nobody has logged. */
  lemma OneWrite(cap: nat, s: State, t: State, p: nat, from: nat, k: nat)
    requires p < |s.procs| && Wrote(s, t, p, from, k) && s.panic == Fine && s.outstanding > 0
    requires k < cap && |s.logged| + k < LOGSIZE - 1
    ensures Wrote(s, Run(cap, t, [(p, Write(from + k))]), p, from, k + 1)
  {
    var run := [(p, Write(from + k))];
    assert run[..0] == [] && Run(cap, t, run) == Step(cap, t, p, Write(from + k));
    hide Run, Total;
    assert |t.procs[p].wrote + {from + k}| == k + 1;
  }

  lemma {:induction false} RunOn(cap: nat, s: State, a: seq<(nat, Action)>, b: seq<(nat, Action)>)
    ensures Run(cap, s, a + b) == Run(cap, Run(cap, s, a), b)
  {
    if b == [] {
      assert a + b == a;
    } else {
      assert (a + b)[..|a + b| - 1] == a + b[..|b| - 1];
      RunOn(cap, s, a, b[..|b| - 1]);
    }
  }

  function Begin(p: nat): seq<(nat, Action)> {
    [(p, Call), (p, Test)]
  }

  lemma BeginAdmits(cap: nat, s: State, p: nat)
    requires p < |s.procs| && s.procs[p] == Outside && s.panic == Fine && !MustWait(s)
    ensures Run(cap, s, Begin(p)) == s.(outstanding := s.outstanding + 1).Goto(p, Inside({}))
  {
    var called := Begin(p)[..1];
    assert called == [(p, Call)] && called[..0] == [];
    assert Run(cap, s, called) == s.Goto(p, Trying);
    assert s.procs[p := Trying][p := Inside({})] == s.procs[p := Inside({})];
  }

  lemma ThreeInside(cap: nat)
    ensures Run(cap, Start(3), Begin(0) + Begin(1) + Begin(2))
            == State(3, false, [], [Inside({}), Inside({}), Inside({})], Fine)
  {
    hide Run, Begin;
    var s0 := Start(3);
    BeginAdmits(cap, s0, 0);
    RunOn(cap, s0, Begin(0), Begin(1));
    var s1 := Run(cap, s0, Begin(0));
    BeginAdmits(cap, s1, 1);
    RunOn(cap, s0, Begin(0) + Begin(1), Begin(2));
    var s2 := Run(cap, s1, Begin(1));
    BeginAdmits(cap, s2, 2);
    assert s2.procs[2 := Inside({})] == [Inside({}), Inside({}), Inside({})];
  }

  /** Three operations of ten blocks each are admitted together, and the last
      block of the last one finds the log full. */
  ghost function TenBlockRun(): seq<(nat, Action)> {
    Begin(0) + Begin(1) + Begin(2) + Writes(0, 0, 10) + Writes(1, 10, 10) + Writes(2, 20, 9) + [(2, Write(29))]
  }

  lemma TenBlocksPanic(cap: nat)
    requires cap >= 10
    ensures Run(cap, Start(3), TenBlockRun()).panic == TooBig
  {
    hide Run, Writes, Step, Begin;
    var begin := Begin(0) + Begin(1) + Begin(2);
    ThreeInside(cap);
    var s0 := Run(cap, Start(3), begin);
    WritesAdd(cap, s0, 0, 0, 10);
    var s1 := Run(cap, s0, Writes(0, 0, 10));
    RunOn(cap, Start(3), begin, Writes(0, 0, 10));
    WritesAdd(cap, s1, 1, 10, 10);
    var s2 := Run(cap, s1, Writes(1, 10, 10));
    RunOn(cap, Start(3), begin + Writes(0, 0, 10), Writes(1, 10, 10));
    WritesAdd(cap, s2, 2, 20, 9);
    var s3 := Run(cap, s2, Writes(2, 20, 9));
    RunOn(cap, Start(3), begin + Writes(0, 0, 10) + Writes(1, 10, 10), Writes(2, 20, 9));
    LastWrite(cap, s3, 2, 29);
    RunOn(cap, Start(3), begin + Writes(0, 0, 10) + Writes(1, 10, 10) + Writes(2, 20, 9), [(2, Write(29))]);
  }

  lemma LastWrite(cap: nat, s: State, p: nat, b: nat)
    requires p < |s.procs| && s.procs[p].Inside? && |s.procs[p].wrote| < cap && s.panic == Fine
    requires |s.logged| >= LOGSIZE - 1
    ensures Run(cap, s, [(p, Write(b))]).panic == TooBig
  {
    var run := [(p, Write(b))];
    assert run[..0] == [];
  }

  /** The "too big a transaction" panic is unreachable, whatever the number of
      processes and their interleaving, exactly when operations write at most
      nine different blocks: one fewer than begin_op reserves. */
  lemma NeverTooBig(cap: nat)
    ensures cap <= 9 <==> forall n: nat, run :: Run(cap, Start(n), run).panic != TooBig
  {
    hide Run;
    if cap <= 9 {
      forall n: nat, run: seq<(nat, Action)> ensures Run(cap, Start(n), run).panic != TooBig {
        AlwaysInv(cap, n, run);
      }
    } else {
      TenBlocksPanic(cap);
    }
  }

  /** log_write adds the block unless it is there already; end_op lets others in
      or, when it is the last one, commits what has been logged. */
  lemma OperationMeans(cap: nat, s: State, p: nat, b: nat)
    requires Inv(cap, s) && s.panic == Fine && p < |s.procs| && s.procs[p].Inside?
    ensures var wrote := s.procs[p].wrote + {b};
            |wrote| <= cap && |s.logged| < LOGSIZE - 1 ==>
              Step(cap, s, p, Write(b)) ==
              s.Goto(p, Inside(wrote)).(logged := if b in s.logged then s.logged else s.logged + [b])
    ensures s.outstanding == 1 ==>
              Step(cap, s, p, End) == s.Goto(p, CommitRunning).(outstanding := 0, committing := true)
    ensures s.outstanding > 1 ==>
              var t := Step(cap, s, p, End);
              && (t.outstanding, t.committing, t.logged, t.panic) == (s.outstanding - 1, false, s.logged, Fine)
              && |t.procs| == |s.procs| && t.procs[p] == Outside
              && forall q :: 0 <= q < |s.procs| && q != p ==>
                   t.procs[q] == if s.procs[q].Asleep? then Trying else s.procs[q]
  {
    hide Total, Woken;
    TotalAtLeast(s.procs, InOp, p);
  }

  /** Nobody but p begins anything: operations end, commits go on, and p tries. */
  ghost predicate OthersFinish(run: seq<(nat, Action)>, p: nat) {
    forall k :: 0 <= k < |run| ==>
      if run[k].0 == p then run[k].1 == Call || run[k].1 == Test
      else run[k].1 == End || run[k].1 == Install || run[k].1 == Finish
  }

  ghost predicate OutOfOp(ph: Phase) {
    ph.Outside? || ph.Trying? || ph.Asleep?
  }

  lemma OneStep(cap: nat, s: State, q: nat, a: Action)
    ensures Run(cap, s, [(q, a)]) == Step(cap, s, q, a)
  {
    var run := [(q, a)];
    assert run[..0] == [] && Run(cap, s, run[..0]) == s;
  }

  /** The end of one operation. */
  lemma EndOne(cap: nat, s: State, p: nat) returns (run: seq<(nat, Action)>)
    requires Inv(cap, s) && s.panic == Fine && p < |s.procs| && OutOfOp(s.procs[p]) && s.outstanding > 0
    ensures OthersFinish(run, p)
    ensures var t := Run(cap, s, run); Inv(cap, t) && t.panic == Fine && OutOfOp(t.procs[p]) && t.outstanding == s.outstanding - 1
  {
    hide Total, Run;
    var q := TotalPositive(s.procs, InOp);
    run := [(q, End)];
    OneStep(cap, s, q, End);
    StepKeepsInv(cap, s, q, End);
  }

  /** The commit that is under way. */
  lemma CommitEnds(cap: nat, s: State, p: nat) returns (run: seq<(nat, Action)>)
    requires Inv(cap, s) && s.panic == Fine && p < |s.procs| && OutOfOp(s.procs[p]) && s.committing
    ensures OthersFinish(run, p)
    ensures var t := Run(cap, s, run); Inv(cap, t) && t.panic == Fine && OutOfOp(t.procs[p]) && t.outstanding == 0 && !t.committing
  {
    hide Total, Run;
    var q := TotalPositive(s.procs, InCommit);
    var t := s;
    run := [(q, Finish)];
    if s.procs[q].CommitRunning? {
      t := Step(cap, s, q, Install);
      StepKeepsInv(cap, s, q, Install);
      OneStep(cap, s, q, Install);
      RunOn(cap, s, [(q, Install)], [(q, Finish)]);
      run := [(q, Install)] + run;
    }
    StepKeepsInv(cap, t, q, Finish);
    OneStep(cap, t, q, Finish);
  }

  /** p gets in when nothing is under way. */
  lemma Enters(cap: nat, s: State, p: nat) returns (run: seq<(nat, Action)>)
    requires Inv(cap, s) && s.panic == Fine && p < |s.procs| && OutOfOp(s.procs[p]) && s.outstanding == 0 && !s.committing
    ensures OthersFinish(run, p) && Run(cap, s, run).procs[p] == Inside({}) && Run(cap, s, run).panic == Fine
  {
    hide Total, Run;
    var t := s;
    run := [(p, Test)];
    if s.procs[p].Outside? {
      t := Step(cap, s, p, Call);
      OneStep(cap, s, p, Call);
      RunOn(cap, s, [(p, Call)], [(p, Test)]);
      run := [(p, Call)] + run;
    }
    OneStep(cap, t, p, Test);
  }

  lemma {:induction false} GetsIn(cap: nat, s: State, p: nat) returns (run: seq<(nat, Action)>)
    requires Inv(cap, s) && s.panic == Fine && p < |s.procs| && OutOfOp(s.procs[p])
    ensures OthersFinish(run, p) && Run(cap, s, run).procs[p] == Inside({}) && Run(cap, s, run).panic == Fine
    decreases s.outstanding, s.committing
  {
    hide Total, Run, Inv;
    NotNegative(cap, s);
    var first: seq<(nat, Action)>;
    if s.outstanding > 0 {
      first := EndOne(cap, s, p);
    } else if s.committing {
      first := CommitEnds(cap, s, p);
    } else {
      run := Enters(cap, s, p);
      return;
    }
    var rest := GetsIn(cap, Run(cap, s, first), p);
    RunOn(cap, s, first, rest);
    run := first + rest;
  }

  lemma NotNegative(cap: nat, s: State)
    requires Inv(cap, s)
    ensures s.outstanding >= 0
  {
  }

  /** From every reachable state, whoever waits in begin_op, or calls it, gets
      in as soon as the operations that are open have ended and the commit is
      through; nobody else has to do anything. */
  lemma EverybodyGetsIn(cap: nat, n: nat, run: seq<(nat, Action)>, p: nat)
    requires p < n && Run(cap, Start(n), run).panic == Fine && OutOfOp(Run(cap, Start(n), run).procs[p])
    ensures exists more ::
              && OthersFinish(more, p)
              && Run(cap, Start(n), run + more).procs[p] == Inside({}) && Run(cap, Start(n), run + more).panic == Fine
  {
    hide Run;
    AlwaysInv(cap, n, run);
    var more := GetsIn(cap, Run(cap, Start(n), run), p);
    RunOn(cap, Start(n), run, more);
  }
}
