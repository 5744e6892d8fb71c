/** lab2/kernel/sem_syscall.c: counting semaphores over sleep and wakeup. */
module Semaphore {

  const EMPTY_SEM: int := -1
  const ERR: int := 0
  const SUCCESS: int := 1
  const MAX_SEM: nat := 512

  /** What sem_down's test finds: nothing to wait for, a closed semaphore, that
      it has to sleep, or that the id is outside the array. */
  datatype Test = Taken | Closed | MustSleep | Outside

  /** What sem_up and one turn of sem_down's loop do to the values. */
  function Upped(value: seq<int>, sem: nat): seq<int>
    requires sem < |value|
  {
    if value[sem] == EMPTY_SEM then value else value[sem := value[sem] + 1]
  }

  function Downed(value: seq<int>, sem: nat): seq<int>
    requires sem < |value|
  {
    if value[sem] == 0 then value else value[sem := value[sem] - 1]
  }

  class SemArray {
    const value: array<int>

    ghost predicate Valid()
      reads this, value
    {
      value.Length == MAX_SEM
    }

    /** make_sem_array */
    constructor ()
      ensures Valid() && fresh(value) && forall i :: 0 <= i < MAX_SEM ==> value[i] == EMPTY_SEM
    {
      value := new int[MAX_SEM];
      new;
      var i := 0;
      while i < MAX_SEM
        invariant 0 <= i <= MAX_SEM && forall k :: 0 <= k < i ==> value[k] == EMPTY_SEM
      {
        value[i] := EMPTY_SEM;
        i := i + 1;
      }
    }

    /** sem_open, and whether it stays inside the array: the test on the id
        lets MAX_SEM through, which has no semaphore. */
    method SemOpen(sem: int, v: int) returns (r: int, inside: bool)
      requires Valid()
      modifies value
      ensures inside <==> v < 0 || sem != MAX_SEM
      ensures r == if v >= 0 && 0 <= sem < MAX_SEM && old(value[..])[sem] == EMPTY_SEM then SUCCESS else ERR
      ensures value[..] == if r == SUCCESS then old(value[..])[sem := v] else old(value[..])
    {
      if v < 0 || sem < 0 || sem > MAX_SEM {
        return ERR, true;
      }
      if sem >= value.Length {
        return ERR, false;
      }
      if value[sem] != EMPTY_SEM {
        return ERR, true;
      }
      value[sem] := v;
      return SUCCESS, true;
    }

    method SemClose(sem: int) returns (r: int, inside: bool)
      requires Valid()
      modifies value
      ensures inside <==> sem != MAX_SEM
      ensures r == if 0 <= sem < MAX_SEM then SUCCESS else ERR
      ensures value[..] == if r == SUCCESS then old(value[..])[sem := EMPTY_SEM] else old(value[..])
    {
      if sem < 0 || sem > MAX_SEM {
        return ERR, true;
      }
      if sem >= value.Length {
        return ERR, false;
      }
      value[sem] := EMPTY_SEM;
      return SUCCESS, true;
    }

    /** sem_up under the lock; it wakes the sleepers when the value was 0. It
        does not test the id at all. */
    method SemUp(sem: int) returns (r: int, woke: bool, inside: bool)
      requires Valid()
      modifies value
      ensures inside <==> 0 <= sem < MAX_SEM
      ensures r == if inside && old(value[..])[sem] != EMPTY_SEM then SUCCESS else ERR
      ensures woke <==> inside && old(value[..])[sem] == 0
      ensures r == SUCCESS ==> value[..] == old(value[..])[sem := old(value[..])[sem] + 1]
      ensures value[..] == if inside then Upped(old(value[..]), sem) else old(value[..])
    {
      if sem < 0 || sem >= value.Length {
        return ERR, false, false;
      }
      var v := value[sem];
      woke := false;
      if v == EMPTY_SEM {
        return ERR, false, true;
      }
      if v == 0 {
        woke := true;
      }
      value[sem] := value[sem] + 1;
      r, inside := SUCCESS, true;
    }

    /** sem_down from the lock to the first sleep: the test for a closed
        semaphore is made once, before the loop, and the id is not tested. */
    method SemDown(sem: int) returns (t: Test)
      requires Valid()
      modifies value
      ensures t == if sem < 0 || sem >= MAX_SEM then Outside
                   else if old(value[..])[sem] == EMPTY_SEM then Closed
                   else if old(value[..])[sem] == 0 then MustSleep else Taken
      ensures value[..] == if t == Taken then old(value[..])[sem := old(value[..])[sem] - 1] else old(value[..])
      ensures value[..] == if t == Outside || t == Closed then old(value[..]) else Downed(old(value[..]), sem)
    {
      if sem < 0 || sem >= value.Length {
        return Outside;
      }
      if value[sem] == EMPTY_SEM {
        return Closed;
      }
      t := Again(sem);
    }

    /** One turn of sem_down's loop. It compares with 0 alone: on a semaphore
        that was closed meanwhile it takes one off EMPTY_SEM. */
    method Again(sem: nat) returns (t: Test)
      requires Valid() && sem < MAX_SEM
      modifies value
      ensures t == if old(value[..])[sem] == 0 then MustSleep else Taken
      ensures value[..] == if t == Taken then old(value[..])[sem := old(value[..])[sem] - 1] else old(value[..])
      ensures value[..] == Downed(old(value[..]), sem)
    {
      if value[sem] == 0 {
        return MustSleep;
      }
      value[sem] := value[sem] - 1;
      return Taken;
    }

    /** pingpong.c's get_empty_sem: the lowest closed semaphore, opened. */
    method GetEmptySem(v: nat) returns (res: int)
      requires Valid()
      modifies value
      ensures -1 <= res < MAX_SEM
      ensures res < 0 <==> forall i :: 0 <= i < MAX_SEM ==> old(value[..])[i] != EMPTY_SEM
      ensures res >= 0 ==> old(value[..])[res] == EMPTY_SEM && forall i :: 0 <= i < res ==> old(value[..])[i] != EMPTY_SEM
      ensures value[..] == if res < 0 then old(value[..]) else old(value[..])[res := v]
    {
      res := 0;
      var tmp, inside := 0, true;
      while res < MAX_SEM && tmp == 0
        invariant 0 <= res <= MAX_SEM && (tmp == ERR || tmp == SUCCESS)
        invariant forall i :: 0 <= i < (if tmp == ERR then res else res - 1) ==> old(value[..])[i] != EMPTY_SEM
        invariant tmp == ERR ==> value[..] == old(value[..])
        invariant tmp == SUCCESS ==>
                    0 < res && old(value[..])[res - 1] == EMPTY_SEM && value[..] == old(value[..])[res - 1 := v]
        decreases MAX_SEM - res, 1 - tmp
      {
        tmp, inside := SemOpen(res, v);
        res := res + 1;
      }
      res := if res == MAX_SEM && tmp == 0 then -1 else res - 1;
    }
  }

  /** What a process does with a semaphore: Trying is awake in sem_down's loop. */
  datatype Pc = Idle | Trying(sem: nat) | Asleep(sem: nat)

  /** The values, and for each open semaphore its first value and the completed
      ups and downs since then. */
  datatype State = State(value: seq<int>, procs: seq<Pc>, first: seq<int>, ups: seq<nat>, downs: seq<nat>)

  datatype Action = Open(sem: nat, v: int) | Close(sem: nat) | Up(sem: nat) | Down(sem: nat) | Retry

  function Woken(procs: seq<Pc>, sem: nat): (r: seq<Pc>)
    ensures |r| == |procs|
    ensures forall p :: 0 <= p < |r| ==> r[p] == if procs[p] == Asleep(sem) then Trying(sem) else procs[p]
  {
    if procs == [] then []
    else
      var last := procs[|procs| - 1];
      Woken(procs[..|procs| - 1], sem) + [if last == Asleep(sem) then Trying(sem) else last]
  }

  ghost predicate Shape(s: State) {
    |s.value| == |s.first| == |s.ups| == |s.downs| == MAX_SEM
  }

  /** The while loop's test and what follows it, under the lock. */
  function TryDown(s: State, p: nat, sem: nat): State
    requires p < |s.procs| && sem < |s.value| == |s.downs|
  {
    if s.value[sem] == 0 then s.(procs := s.procs[p := Asleep(sem)])
    else s.(value := Downed(s.value, sem), downs := s.downs[sem := s.downs[sem] + 1], procs := s.procs[p := Idle])
  }

  /** Process p takes the semaphore's lock and goes on until it releases it. */
  function Step(s: State, p: nat, a: Action): (t: State)
    requires Shape(s)
    ensures Shape(t) && |t.procs| == |s.procs|
  {
    if p >= |s.procs| then s
    else match (s.procs[p], a)
      case (Trying(sem), Retry) => if sem < MAX_SEM then TryDown(s, p, sem) else s
      case (Idle, Open(sem, v)) =>
        if v < 0 || sem >= MAX_SEM || s.value[sem] != EMPTY_SEM then s
        else s.(value := s.value[sem := v], first := s.first[sem := v], ups := s.ups[sem := 0], downs := s.downs[sem := 0])
      case (Idle, Close(sem)) => if sem >= MAX_SEM then s else s.(value := s.value[sem := EMPTY_SEM])
      case (Idle, Up(sem)) =>
        if sem >= MAX_SEM || s.value[sem] == EMPTY_SEM then s
        else
          s.(value := Upped(s.value, sem), ups := s.ups[sem := s.ups[sem] + 1],
             procs := if s.value[sem] == 0 then Woken(s.procs, sem) else s.procs)
      case (Idle, Down(sem)) => if sem >= MAX_SEM || s.value[sem] == EMPTY_SEM then s else TryDown(s, p, sem)
      case _ => s
  }

  function Run(s: State, run: seq<(nat, Action)>): (t: State)
    requires Shape(s)
    ensures Shape(t) && |t.procs| == |s.procs|
  {
    if run == [] then s else var last := run[|run| - 1]; Step(Run(s, run[..|run| - 1]), last.0, last.1)
  }

  predicate WaitsOn(pc: Pc, sem: nat) {
    pc == Trying(sem) || pc == Asleep(sem)
  }

  /** A close that goes through on a semaphore on which somebody waits. */
  ghost predicate ClosesUnderWaiter(s: State, p: nat, a: Action) {
    && p < |s.procs| && s.procs[p] == Idle && a.Close? && a.sem < MAX_SEM
    && exists q :: 0 <= q < |s.procs| && WaitsOn(s.procs[q], a.sem)
  }

  /** Nobody closes a semaphore on which somebody waits. */
  ghost predicate Legal(s: State, run: seq<(nat, Action)>)
    requires Shape(s)
  {
    forall k :: 0 <= k < |run| ==> !ClosesUnderWaiter(Run(s, run[..k]), run[k].0, run[k].1)
  }

  ghost predicate SemOk(s: State, sem: nat)
    requires Shape(s) && sem < MAX_SEM
  {
    && s.value[sem] >= EMPTY_SEM
    && (s.value[sem] != EMPTY_SEM ==> s.value[sem] == s.first[sem] + s.ups[sem] - s.downs[sem])
    && forall p :: 0 <= p < |s.procs| ==>
         && (WaitsOn(s.procs[p], sem) ==> s.value[sem] != EMPTY_SEM)
         && (s.procs[p] == Asleep(sem) ==> s.value[sem] == 0)
  }

  ghost predicate Inv(s: State) {
    Shape(s) && forall sem: nat :: sem < MAX_SEM ==> SemOk(s, sem)
  }

  lemma StepInv(s: State, p: nat, a: Action)
    requires Inv(s) && !ClosesUnderWaiter(s, p, a)
    ensures Inv(Step(s, p, a))
  {
    var t := Step(s, p, a);
    forall sem: nat | sem < MAX_SEM ensures SemOk(t, sem) {
      assert SemOk(s, sem);
      assert p < |s.procs| && s.procs[p].Trying? && s.procs[p].sem < MAX_SEM ==> SemOk(s, s.procs[p].sem);
    }
  }

  lemma LegalPrefix(s: State, run: seq<(nat, Action)>, n: nat)
    requires Shape(s) && Legal(s, run) && n <= |run|
    ensures Legal(s, run[..n])
  {
    forall k | 0 <= k < n ensures run[..n][..k] == run[..k] && run[..n][k] == run[k] {
    }
  }

  lemma {:induction false} AlwaysInv(s: State, run: seq<(nat, Action)>)
    requires Inv(s) && Legal(s, run)
    ensures Inv(Run(s, run))
  {
    if run != [] {
      var k := |run| - 1;
      LegalPrefix(s, run, k);
      AlwaysInv(s, run[..k]);
      StepInv(Run(s, run[..k]), run[k].0, run[k].1);
    }
  }

  /** make_sem_array, and any number of processes. */
  ghost predicate Boot(s: State) {
    && Shape(s) && (forall sem :: 0 <= sem < MAX_SEM ==> s.value[sem] == EMPTY_SEM)
    && forall p :: 0 <= p < |s.procs| ==> s.procs[p] == Idle
  }

  /** An open semaphore's value is its first value plus the ups minus the
      downs, never negative, and nobody sleeps on it while it is positive. */
  ghost predicate Counts(s: State, sem: nat)
    requires Shape(s) && sem < MAX_SEM
  {
    s.value[sem] == EMPTY_SEM || (
      && s.value[sem] == s.first[sem] + s.ups[sem] - s.downs[sem] >= 0
      && forall p :: 0 <= p < |s.procs| && s.procs[p] == Asleep(sem) ==> s.value[sem] == 0)
  }

  /** In every interleaving of any number of processes in which nobody closes a
      semaphore that others wait on, every semaphore counts. */
  lemma SemaphoreCounts(s: State, run: seq<(nat, Action)>, sem: nat)
    requires Boot(s) && Legal(s, run) && sem < MAX_SEM
    ensures Counts(Run(s, run), sem)
  {
    hide Run;
    AlwaysInv(s, run);
    assert SemOk(Run(s, run), sem);
  }

  /** Whatever happens next, but for such closes, every semaphore counts. */
  ghost predicate Safe(s: State) {
    Shape(s) && forall run, sem: nat :: Legal(s, run) && sem < MAX_SEM ==> Counts(Run(s, run), sem)
  }

  lemma InvIsSafe(s: State)
    requires Inv(s)
    ensures Safe(s)
  {
    hide Run;
    forall run, sem: nat | Legal(s, run) && sem < MAX_SEM ensures Counts(Run(s, run), sem) {
      AlwaysInv(s, run);
      assert SemOk(Run(s, run), sem);
    }
  }

  /** What a close does to those who wait. A sleeper is left asleep when the
      semaphore is opened again, with 1. One that was awake takes one off the
      closed semaphore: no process can open it any more, until it is closed
      once again. */
  lemma CloseBreaks(s: State, p: nat, q: nat, sem: nat)
    requires Shape(s) && p < |s.procs| && s.procs[p] == Idle && q < |s.procs| && sem < MAX_SEM
    ensures var t := Step(s, p, Close(sem));
            && (s.procs[q] == Asleep(sem) ==>
                  var u := Step(t, p, Open(sem, 1)); u.value[sem] == 1 && u.procs[q] == Asleep(sem))
            && (s.procs[q] == Trying(sem) ==>
                  var u := Step(t, q, Retry);
                  u.value[sem] == EMPTY_SEM - 1 && forall r: nat, v :: Step(u, r, Open(sem, v)) == u)
  {
  }

  /** A close is harmless exactly when nobody waits on the semaphore. */
  lemma CloseIsSafe(s: State, p: nat, sem: nat)
    requires Inv(s) && p < |s.procs| && s.procs[p] == Idle && sem < MAX_SEM
    ensures Safe(Step(s, p, Close(sem))) <==> !ClosesUnderWaiter(s, p, Close(sem))
    ensures Inv(Step(s, p, Close(sem))) <==> !ClosesUnderWaiter(s, p, Close(sem))
  {
    var t := Step(s, p, Close(sem));
    if ClosesUnderWaiter(s, p, Close(sem)) {
      var q :| 0 <= q < |s.procs| && WaitsOn(s.procs[q], sem);
      CloseBreaks(s, p, q, sem);
      var next: (nat, Action) := if s.procs[q] == Asleep(sem) then (p, Open(sem, 1)) else (q, Retry);
      assert [next][..0] == [] && Run(t, [next]) == Step(t, next.0, next.1);
      assert Legal(t, [next]) && !Counts(Run(t, [next]), sem);
      if Inv(t) {
        InvIsSafe(t);
      }
    } else {
      StepInv(s, p, Close(sem));
      InvIsSafe(t);
    }
  }

  /** For every run from the start: all its states are safe if and only if
      nobody closes a semaphore that others wait on. */
  lemma {:induction false} SafeExactlyWhenLegal(s: State, run: seq<(nat, Action)>)
    requires Boot(s)
    ensures Legal(s, run) <==> forall k :: 0 <= k <= |run| ==> Safe(Run(s, run[..k]))
  {
    hide Run, Step;
    if Legal(s, run) {
      forall k | 0 <= k <= |run| ensures Safe(Run(s, run[..k])) {
        LegalPrefix(s, run, k);
        AlwaysInv(s, run[..k]);
        InvIsSafe(Run(s, run[..k]));
      }
    } else {
      assert run[..|run|] == run;
      var k := FirstIllegal(s, run, |run|);
      var t := Run(s, run[..k]);
      AlwaysInv(s, run[..k]);
      CloseIsSafe(t, run[k].0, run[k].1.sem);
      RunOneMore(s, run, k);
      assert !Safe(Run(s, run[..k + 1]));
    }
  }

  lemma RunOneMore(s: State, run: seq<(nat, Action)>, k: nat)
    requires Shape(s) && k < |run|
    ensures Run(s, run[..k + 1]) == Step(Run(s, run[..k]), run[k].0, run[k].1)
  {
    assert run[..k + 1][..k] == run[..k];
  }

  lemma {:induction false} FirstIllegal(s: State, run: seq<(nat, Action)>, n: nat) returns (k: nat)
    requires Shape(s) && n <= |run| && !Legal(s, run[..n])
    ensures k < n && Legal(s, run[..k]) && ClosesUnderWaiter(Run(s, run[..k]), run[k].0, run[k].1)
  {
    hide Run;
    assert n > 0;
    var m := n - 1;
    assert forall j :: 0 <= j < n ==> run[..n][..j] == run[..j];
    if Legal(s, run[..m]) {
      k := m;
      assert forall j :: 0 <= j < m ==> run[..m][..j] == run[..j];
      assert forall j :: 0 <= j < m ==> !ClosesUnderWaiter(Run(s, run[..m][..j]), run[..m][j].0, run[..m][j].1);
    } else {
      k := FirstIllegal(s, run, m);
    }
  }

  /** Both ways in which it goes wrong, from the start: the sleeper stays
      asleep on 5, and the process that was woken leaves the value at -2. */
  lemma CloseStrandsSleeper(s: State)
    requires Boot(s) && |s.procs| == 2
    ensures var t := Run(s, [(0, Open(3, 0)), (0, Down(3)), (1, Close(3)), (1, Open(3, 5))]);
            t.procs[0] == Asleep(3) && t.value[3] == 5
    ensures Run(s, [(0, Open(3, 0)), (0, Down(3)), (1, Up(3)), (1, Close(3)), (0, Retry)]).value[3] == -2
  {
    hide Run, Woken;
    var run: seq<(nat, Action)> := [(0, Open(3, 0)), (0, Down(3)), (1, Close(3)), (1, Open(3, 5))];
    var other: seq<(nat, Action)> := [(0, Open(3, 0)), (0, Down(3)), (1, Up(3)), (1, Close(3)), (0, Retry)];
    FirstFour(s, run);
    FirstFour(s, other[..4]);
    RunOneMore(s, other, 4);
    assert other[..5] == other;
    var asleep := Step(Step(s, 0, Open(3, 0)), 0, Down(3));
    assert asleep.procs[0] == Asleep(3) && asleep.procs[1] == Idle && asleep.value[3] == 0;
    var woken := Step(asleep, 1, Up(3));
    assert woken.procs[0] == Trying(3) && woken.procs[1] == Idle;
  }

  lemma FirstFour(s: State, run: seq<(nat, Action)>)
    requires Shape(s) && |run| == 4
    ensures Run(s, run) == Step(Step(Step(Step(s, run[0].0, run[0].1), run[1].0, run[1].1), run[2].0, run[2].1),
                                run[3].0, run[3].1)
  {
    hide Step;
    assert run[..4] == run && run[..0] == [];
    RunOneMore(s, run, 0);
    RunOneMore(s, run, 1);
    RunOneMore(s, run, 2);
    RunOneMore(s, run, 3);
  }
}
