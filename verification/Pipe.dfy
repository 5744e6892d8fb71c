/** lab2/kernel/pipe.c: a bounded FIFO over a ring with wrapping counters, and
    the readers and writers that sleep on it. */
module Pipe {

  const PIPESIZE: nat := 512
  const UINT_LIMIT: nat := 0x1_0000_0000

  type byte = x: int | 0 <= x < 256

  /** How much of a write goes into a pipe that holds n bytes. */
  function Taken(n: nat, rest: nat): nat
    requires n <= PIPESIZE
  {
    if rest <= PIPESIZE - n then rest else PIPESIZE - n
  }

  /** A writer that has rest bytes to write, of which m fit, is killed after k
      of them and finds out. */
  predicate CutShort(m: nat, rest: nat, k: nat) {
    k < rest && k <= m
  }

  /** What a call comes to before it gives up the lock. */
  datatype Outcome = Done | Slept | Failed

  class PipeBuffer {
    const data: array<byte>
    var nread: nat
    var nwrite: nat
    var readopen: bool
    var writeopen: bool
    /** The bytes written and not yet read, oldest first. */
    ghost var contents: seq<byte>

    ghost predicate Valid()
      reads this, data
    {
      && data.Length == PIPESIZE && |contents| <= PIPESIZE
      && nread < UINT_LIMIT && nwrite == (nread + |contents|) % UINT_LIMIT && Holds(data[..], nread, contents)
    }

    /** pipealloc */
    constructor ()
      ensures Valid() && fresh(data) && contents == [] && readopen && writeopen
    {
      data := new byte[PIPESIZE];
      nread, nwrite, readopen, writeopen := 0, 0, true, true;
      contents := [];
    }

    lemma Empty()
      requires Valid()
      ensures nread == nwrite <==> contents == []
      ensures nwrite == (nread + PIPESIZE) % UINT_LIMIT <==> |contents| == PIPESIZE
    {
    }

    /** pi->data[pi->nwrite++ % PIPESIZE] = ch */
    method Put(ch: byte)
      requires Valid() && |contents| < PIPESIZE
      modifies this`nwrite, this`contents, data
      ensures Valid() && contents == old(contents) + [ch]
    {
      hide Holds, Next, Slot;
      PutHolds(data[..], nread, contents, ch);
      SlotOf(nread, |contents|);
      CountersMove(nread, |contents|);
      data[nwrite % PIPESIZE] := ch;
      nwrite := Next(nwrite);
      contents := contents + [ch];
    }

    /** ch = pi->data[pi->nread++ % PIPESIZE] */
    method Get() returns (ch: byte)
      requires Valid() && contents != []
      modifies this`nread, this`contents
      ensures Valid() && old(contents) == [ch] + contents
    {
      hide Holds, Next, Slot;
      GetHolds(data[..], nread, contents);
      SlotOf(nread, 0);
      CountersMove(nread, |contents|);
      ch := data[nread % PIPESIZE];
      nread := Next(nread);
      contents := contents[1..];
    }

    /** pipewrite from taking the lock to giving it up. The other end may have
        closed; killed(pr) becomes true after `alive` turns of the loop. The
        test for it comes before the test for a full pipe. */
    method WriteTurn(src: seq<byte>, i: nat, alive: nat) returns (j: nat, r: Outcome, woke: bool)
      requires Valid() && i <= |src|
      modifies this`nwrite, this`contents, data
      ensures Valid() && i <= j <= |src| && contents == old(contents) + src[i..j]
      ensures var m := Taken(|old(contents)|, |src| - i);
              if i < |src| && !readopen then r == Failed && j == i
              else if CutShort(m, |src| - i, alive) then r == Failed && j == i + alive
              else j == i + m && r == if j == |src| then Done else Slept
      ensures woke <==> r != Failed
    {
      j := i;
      var turns := 0;
      while j < |src|
        invariant Valid() && i <= j <= |src| && contents == old(contents) + src[i..j] && turns == j - i
        invariant j > i ==> readopen
        invariant turns <= alive && turns <= Taken(|old(contents)|, |src| - i)
      {
        if !readopen || turns >= alive {
          return j, Failed, false;
        }
        Empty();
        if nwrite == (nread + PIPESIZE) % UINT_LIMIT {
          return j, Slept, true;
        }
        Put(src[j]);
        assert src[i..j + 1] == src[i..j] + [src[j]];
        j := j + 1;
        turns := turns + 1;
      }
      return j, Done, true;
    }

    /** piperead from taking the lock to giving it up. */
    method ReadTurn(n: nat, killed: bool) returns (dst: seq<byte>, r: Outcome, woke: bool)
      requires Valid()
      modifies this`nread, this`contents
      ensures Valid() && old(contents) == dst + contents
      ensures r == if old(contents) == [] && writeopen then (if killed then Failed else Slept) else Done
      ensures |dst| == if r != Done then 0 else if n < |old(contents)| then n else |old(contents)|
      ensures woke <==> r == Done
    {
      dst := [];
      Empty();
      if nread == nwrite && writeopen {
        return dst, if killed then Failed else Slept, false;
      }
      var i := 0;
      while i < n
        invariant 0 <= i <= n && |dst| == i && Valid() && old(contents) == dst + contents
      {
        Empty();
        if nread == nwrite {
          break;
        }
        var ch := Get();
        dst := dst + [ch];
        i := i + 1;
      }
      r, woke := Done, true;
    }
  }

  function Slot(idx: nat, k: nat): (r: nat)
    ensures r < PIPESIZE
  {
    (idx + k) % PIPESIZE
  }

  /** PIPESIZE divides the range of the counters, so wrapping keeps slots. */
  lemma SlotOf(idx: nat, k: nat)
    requires idx < UINT_LIMIT && k <= PIPESIZE
    ensures (idx + k) % UINT_LIMIT % PIPESIZE == Slot(idx, k)
    ensures Slot(Next(idx), k) == Slot(idx, k + 1)
  {
    assert (idx + k) % UINT_LIMIT == if idx + k < UINT_LIMIT then idx + k else idx + k - UINT_LIMIT;
    assert Next(idx) == if idx + 1 < UINT_LIMIT then idx + 1 else 0;
  }

  lemma SlotsDiffer(idx: nat, j: nat, k: nat)
    requires j < k < j + PIPESIZE
    ensures Slot(idx, j) != Slot(idx, k)
  {
  }

  /** The ring holds these bytes from the reader's slot on. */
  ghost predicate Holds(data: seq<byte>, nread: nat, contents: seq<byte>) {
    |data| == PIPESIZE && forall k :: 0 <= k < |contents| ==> data[Slot(nread, k)] == contents[k]
  }

  lemma PutHolds(data: seq<byte>, nread: nat, contents: seq<byte>, ch: byte)
    requires Holds(data, nread, contents) && |contents| < PIPESIZE
    ensures Holds(data[Slot(nread, |contents|) := ch], nread, contents + [ch])
  {
    forall k | 0 <= k < |contents| ensures Slot(nread, k) != Slot(nread, |contents|) {
      SlotsDiffer(nread, k, |contents|);
    }
    hide Slot;
  }

  lemma GetHolds(data: seq<byte>, nread: nat, contents: seq<byte>)
    requires Holds(data, nread, contents) && 0 < |contents| <= PIPESIZE && nread < UINT_LIMIT
    ensures data[Slot(nread, 0)] == contents[0] && contents == [contents[0]] + contents[1..]
    ensures Holds(data, Next(nread), contents[1..])
  {
    forall k | 0 <= k < |contents[1..]| ensures Slot(Next(nread), k) == Slot(nread, k + 1) {
      SlotOf(nread, k);
    }
    hide Slot, Next;
  }

  /** A counter's ++ */
  function Next(n: nat): (r: nat)
    ensures r < UINT_LIMIT
  {
    (n + 1) % UINT_LIMIT
  }

  lemma CountersMove(nread: nat, n: nat)
    requires nread < UINT_LIMIT && n <= PIPESIZE
    ensures Next((nread + n) % UINT_LIMIT) == (nread + (n + 1)) % UINT_LIMIT
    ensures n > 0 ==> (Next(nread) + (n - 1)) % UINT_LIMIT == (nread + n) % UINT_LIMIT
  {
    assert (nread + n) % UINT_LIMIT == if nread + n < UINT_LIMIT then nread + n else nread + n - UINT_LIMIT;
    assert Next(nread) == if nread + 1 < UINT_LIMIT then nread + 1 else 0;
  }

  /** Writing and Reading are awake in the call. */
  datatype Pc =
    | Idle
    | Writing(src: seq<byte>, i: nat) | WriteSleep(src: seq<byte>, i: nat)
    | Reading(n: nat) | ReadSleep(n: nat)

  /** The pipe, all bytes ever inserted and removed, the processes, and which
      of them have been killed. */
  datatype State = State(contents: seq<byte>, readopen: bool, writeopen: bool,
                         inserted: seq<byte>, removed: seq<byte>, procs: seq<Pc>, killed: seq<bool>)

  /** Kill is kill() of a process between two turns, which also gets it out of
      sleep; KillAfter is the turn of a writer that kill() meets when it has
      put k bytes. */
  datatype Action = Write(src: seq<byte>) | Read(n: nat) | Turn | Kill | KillAfter(k: nat) | CloseRead | CloseWrite

  /** wakeup(&pi->nread) and wakeup(&pi->nwrite) */
  function Woken(procs: seq<Pc>, readers: bool): (r: seq<Pc>)
    ensures |r| == |procs|
    ensures forall p :: 0 <= p < |r| ==> r[p] == WokenPc(procs[p], readers)
  {
    if procs == [] then []
    else Woken(procs[..|procs| - 1], readers) + [WokenPc(procs[|procs| - 1], readers)]
  }

  function WokenPc(pc: Pc, readers: bool): Pc {
    match pc
    case WriteSleep(src, i) => if readers then pc else Writing(src, i)
    case ReadSleep(n) => if readers then Reading(n) else pc
    case _ => pc
  }

  /** What kill does to a process that sleeps. */
  function Roused(pc: Pc): Pc {
    match pc
    case WriteSleep(src, i) => Writing(src, i)
    case ReadSleep(n) => Reading(n)
    case _ => pc
  }

  function Insert(s: State, bytes: seq<byte>): State {
    s.(contents := s.contents + bytes, inserted := s.inserted + bytes)
  }

  /** What WriteTurn does. */
  function WriteStep(s: State, p: nat, src: seq<byte>, i: nat): State
    requires p < |s.procs| == |s.killed| && i <= |src| && |s.contents| <= PIPESIZE
  {
    if i < |src| && (!s.readopen || s.killed[p]) then s.(procs := s.procs[p := Idle])
    else
      var j := i + Taken(|s.contents|, |src| - i);
      var t := Insert(s, src[i..j]);
      t.(procs := Woken(s.procs, true)[p := if j == |src| then Idle else WriteSleep(src, j)])
  }

  /** What WriteTurn does when the writer is killed after k bytes. */
  function KilledStep(s: State, p: nat, src: seq<byte>, i: nat, k: nat): State
    requires p < |s.procs| == |s.killed| && i + k <= |src|
  {
    Insert(s, src[i..i + k]).(procs := s.procs[p := Idle], killed := s.killed[p := true])
  }

  /** What ReadTurn does. */
  function ReadStep(s: State, p: nat, n: nat): State
    requires p < |s.procs| == |s.killed|
  {
    if s.contents == [] && s.writeopen then s.(procs := s.procs[p := if s.killed[p] then Idle else ReadSleep(n)])
    else
      var k := if n < |s.contents| then n else |s.contents|;
      s.(contents := s.contents[k..], removed := s.removed + s.contents[..k],
         procs := Woken(s.procs, false)[p := Idle])
  }

  predicate Shape(s: State) {
    |s.contents| <= PIPESIZE && |s.killed| == |s.procs|
  }

  /** kill() can meet p when it has put k bytes and has to go round once more. */
  predicate CanKillAfter(s: State, p: nat, k: nat)
    requires Shape(s)
  {
    && p < |s.procs| && s.procs[p].Writing? && s.procs[p].i <= |s.procs[p].src| && s.readopen && !s.killed[p]
    && var rest := |s.procs[p].src| - s.procs[p].i; CutShort(Taken(|s.contents|, rest), rest, k)
  }

  function Step(s: State, p: nat, a: Action): (t: State)
    requires Shape(s)
    ensures Shape(t) && |t.procs| == |s.procs|
  {
    if p >= |s.procs| then s
    else match (s.procs[p], a)
      case (_, Kill) => s.(procs := s.procs[p := Roused(s.procs[p])], killed := s.killed[p := true])
      case (Idle, Write(src)) => s.(procs := s.procs[p := Writing(src, 0)])
      case (Idle, Read(n)) => s.(procs := s.procs[p := Reading(n)])
      case (Writing(src, i), Turn) => if i <= |src| then WriteStep(s, p, src, i) else s
      case (Writing(src, i), KillAfter(k)) => if CanKillAfter(s, p, k) then KilledStep(s, p, src, i, k) else s
      case (Reading(n), Turn) => ReadStep(s, p, n)
      case (Idle, CloseWrite) => s.(writeopen := false, procs := Woken(s.procs, true))
      case (Idle, CloseRead) => s.(readopen := false, procs := Woken(s.procs, false))
      case _ => s
  }

  function Run(s: State, run: seq<(nat, Action)>): (t: State)
    requires Shape(s)
    ensures Shape(t) && |t.procs| == |s.procs|
  {
    if run == [] then s else var last := run[|run| - 1]; Step(Run(s, run[..|run| - 1]), last.0, last.1)
  }

  ghost predicate SleepersOk(s: State) {
    forall p :: 0 <= p < |s.procs| ==>
      && (s.procs[p].ReadSleep? ==> s.contents == [] && s.writeopen)
      && (s.procs[p].WriteSleep? ==> |s.contents| == PIPESIZE && s.readopen)
  }

  ghost predicate Boot(s: State) {
    && s.contents == s.inserted == s.removed == [] && s.readopen && s.writeopen && |s.killed| == |s.procs|
    && forall p :: 0 <= p < |s.procs| ==> s.procs[p] == Idle
  }

  /** In every run, killed writers or not, the bytes removed are a prefix of
      those inserted, and what lies between is in the pipe. */
  lemma {:induction false} Fifo(s: State, run: seq<(nat, Action)>)
    requires Boot(s)
    ensures var t := Run(s, run); t.inserted == t.removed + t.contents
  {
    if run != [] {
      Fifo(s, run[..|run| - 1]);
      var t := Run(s, run[..|run| - 1]);
      StepFifo(t, run[|run| - 1].0, run[|run| - 1].1);
    }
  }

  lemma StepFifo(s: State, p: nat, a: Action)
    requires Shape(s) && s.inserted == s.removed + s.contents
    ensures var t := Step(s, p, a); t.inserted == t.removed + t.contents
  {
    hide Taken, Woken, WriteStep, KilledStep, ReadStep;
    if p < |s.procs| {
      match (s.procs[p], a)
      case (Reading(n), _) => ReadFifo(s, p, n);
      case (Writing(src, i), Turn) =>
        if i <= |src| {
          WriteFifo(s, p, src, i);
        }
      case (Writing(src, i), KillAfter(k)) =>
        if CanKillAfter(s, p, k) {
          KilledFifo(s, p, src, i, k);
        }
      case _ =>
    }
  }

  lemma WriteFifo(s: State, p: nat, src: seq<byte>, i: nat)
    requires Shape(s) && p < |s.procs| && s.inserted == s.removed + s.contents && i <= |src|
    ensures var t := WriteStep(s, p, src, i); t.inserted == t.removed + t.contents
  {
    hide Woken;
  }

  lemma KilledFifo(s: State, p: nat, src: seq<byte>, i: nat, k: nat)
    requires Shape(s) && p < |s.procs| && s.inserted == s.removed + s.contents && i + k <= |src|
    ensures var t := KilledStep(s, p, src, i, k); t.inserted == t.removed + t.contents
  {
  }

  lemma ReadFifo(s: State, p: nat, n: nat)
    requires p < |s.procs| == |s.killed| && s.inserted == s.removed + s.contents
    ensures var t := ReadStep(s, p, n); t.inserted == t.removed + t.contents
  {
    hide Woken;
    var k := if n < |s.contents| then n else |s.contents|;
    assert s.contents == s.contents[..k] + s.contents[k..];
  }

  /** A writer that is killed behind a byte it has put, over a sleeping reader. */
  ghost predicate KilledOverReader(s: State, p: nat, a: Action)
    requires Shape(s)
  {
    && a.KillAfter? && CanKillAfter(s, p, a.k) && a.k > 0
    && exists q :: 0 <= q < |s.procs| && s.procs[q].ReadSleep?
  }

  /** The one step that leaves somebody asleep who could go on. */
  lemma StepSleepers(s: State, p: nat, a: Action)
    requires Shape(s) && SleepersOk(s)
    ensures SleepersOk(Step(s, p, a)) <==> !KilledOverReader(s, p, a)
  {
    if a.KillAfter? && CanKillAfter(s, p, a.k) {
      var t := Step(s, p, a);
      assert |t.contents| == |s.contents| + a.k;
      forall q | 0 <= q < |s.procs| && q != p ensures t.procs[q] == s.procs[q] {
      }
    }
  }

  /** In every run of any number of readers and writers, killed or not: at all
      times nobody sleeps who could go on -- no reader while there are bytes or
      the write end is closed, no writer while there is room or the read end is
      closed -- if and only if no writer is killed behind a byte that it has
      put while a reader sleeps. */
  lemma {:induction false} NobodyStranded(s: State, run: seq<(nat, Action)>)
    requires Boot(s)
    ensures (forall k :: 0 <= k <= |run| ==> SleepersOk(Run(s, run[..k])))
       <==> (forall k :: 0 <= k < |run| ==> !KilledOverReader(Run(s, run[..k]), run[k].0, run[k].1))
  {
    hide Step, KilledOverReader, SleepersOk;
    if forall k :: 0 <= k <= |run| ==> SleepersOk(Run(s, run[..k])) {
      forall k | 0 <= k < |run| ensures !KilledOverReader(Run(s, run[..k]), run[k].0, run[k].1) {
        RunOneMore(s, run, k);
        StepSleepers(Run(s, run[..k]), run[k].0, run[k].1);
      }
    }
    if forall k :: 0 <= k < |run| ==> !KilledOverReader(Run(s, run[..k]), run[k].0, run[k].1) {
      forall k | 0 <= k <= |run| ensures SleepersOk(Run(s, run[..k])) {
        SleepersUpTo(s, run, k);
      }
    }
  }

  lemma {:induction false} SleepersUpTo(s: State, run: seq<(nat, Action)>, k: nat)
    requires Boot(s) && k <= |run|
    requires forall j :: 0 <= j < k ==> !KilledOverReader(Run(s, run[..j]), run[j].0, run[j].1)
    ensures SleepersOk(Run(s, run[..k]))
  {
    hide Step, KilledOverReader;
    if k > 0 {
      SleepersUpTo(s, run, k - 1);
      RunOneMore(s, run, k - 1);
      StepSleepers(Run(s, run[..k - 1]), run[k - 1].0, run[k - 1].1);
    }
  }

  lemma RunOneMore(s: State, run: seq<(nat, Action)>, k: nat)
    requires Shape(s) && k < |run|
    ensures Run(s, run[..k + 1]) == Step(Run(s, run[..k]), run[k].0, run[k].1)
  {
    assert run[..k + 1][..k] == run[..k];
  }

  /** A run from the start in which it happens: the reader sleeps on a byte. */
  lemma KillStrandsReader(s: State)
    requires Boot(s) && |s.procs| == 2 && !s.killed[0] && !s.killed[1]
    ensures var t := Run(s, [(0, Read(1)), (0, Turn), (1, Write([7, 8])), (1, KillAfter(1))]);
            t.procs[0] == ReadSleep(1) && t.contents == [7] && t.writeopen
  {
    var run: seq<(nat, Action)> := [(0, Read(1)), (0, Turn), (1, Write([7, 8])), (1, KillAfter(1))];
    assert run[..3][..2] == run[..2] && run[..2][..1] == run[..1] && run[..1][..0] == [];
    assert Run(s, run[..1]).procs[0] == Reading(1);
    assert Run(s, run[..2]).procs[0] == ReadSleep(1);
    assert Run(s, run[..3]).procs[1] == Writing([7, 8], 0);
  }

  /** Everybody whom the wakeup reaches is awake, and nobody else has moved. */
  ghost predicate Awakened(s: State, t: State, p: nat, readers: bool) {
    && |t.procs| == |s.procs|
    && forall q :: 0 <= q < |s.procs| && q != p ==>
         t.procs[q] == match s.procs[q]
                       case ReadSleep(n) => if readers then Reading(n) else s.procs[q]
                       case WriteSleep(src, i) => if readers then s.procs[q] else Writing(src, i)
                       case _ => s.procs[q]
  }

  ghost predicate PutUpTo(s: State, t: State, p: nat, src: seq<byte>, i: nat, j: nat) {
    && p < |s.procs| && Awakened(s, t, p, true) && i <= j <= |src|
    && t.contents == s.contents + src[i..j] && t.inserted == s.inserted + src[i..j] && t.removed == s.removed
    && (if j == |src| then t.procs[p] == Idle else |t.contents| == PIPESIZE && t.procs[p] == WriteSleep(src, j))
    && (t.readopen, t.writeopen, t.killed) == (s.readopen, s.writeopen, s.killed)
  }

  /** A writer's turn puts bytes until all are in or the pipe is full, unless
      nobody can read them or the writer is killed. */
  lemma WriterMoves(s: State, p: nat, src: seq<byte>, i: nat)
    requires Shape(s) && p < |s.procs| && s.procs[p] == Writing(src, i) && i <= |src|
    ensures var t := Step(s, p, Turn);
            if i < |src| && (!s.readopen || s.killed[p]) then t == s.(procs := s.procs[p := Idle])
            else
              exists j: nat :: PutUpTo(s, t, p, src, i, j)
  {
    hide Woken;
    if i == |src| || (s.readopen && !s.killed[p]) {
      var j := i + Taken(|s.contents|, |src| - i);
      assert PutUpTo(s, Step(s, p, Turn), p, src, i, j);
    }
  }

  /** A reader's turn takes what there is, up to n bytes, and wakes the writers;
      it sleeps on an empty pipe only while that may still be written to. */
  lemma ReaderMoves(s: State, p: nat, n: nat)
    requires Shape(s) && p < |s.procs| && s.procs[p] == Reading(n)
    ensures var t := Step(s, p, Turn);
            if s.contents == [] && s.writeopen then
              t == s.(procs := s.procs[p := if s.killed[p] then Idle else ReadSleep(n)])
            else
              exists got: seq<byte> :: s.contents == got + t.contents && t.removed == s.removed + got
                && (|got| == n || (|got| < n && t.contents == [])) && t.inserted == s.inserted
                && t.procs[p] == Idle && Awakened(s, t, p, false)
                && (t.readopen, t.writeopen, t.killed) == (s.readopen, s.writeopen, s.killed)
  {
    hide Woken;
    if s.contents != [] || !s.writeopen {
      var k := if n < |s.contents| then n else |s.contents|;
      var got := s.contents[..k];
      assert s.contents == got + s.contents[k..];
    }
  }

  /** Closing one end wakes everybody who waits for the other end to act, and
      kill wakes the one process that it is for. */
  lemma OthersMean(s: State, p: nat)
    requires Shape(s) && p < |s.procs|
    ensures s.procs[p] == Idle ==>
      var t := Step(s, p, CloseWrite);
      t.procs[p] == Idle && Awakened(s, t, p, true) && t.(procs := s.procs) == s.(writeopen := false)
    ensures s.procs[p] == Idle ==>
      var t := Step(s, p, CloseRead);
      t.procs[p] == Idle && Awakened(s, t, p, false) && t.(procs := s.procs) == s.(readopen := false)
    ensures var t := Step(s, p, Kill);
            && !t.procs[p].ReadSleep? && !t.procs[p].WriteSleep? && t.killed == s.killed[p := true]
            && t.(killed := s.killed, procs := t.procs[p := s.procs[p]]) == s
  {
    hide Woken;
  }

  /** One round: w's turn, and a read of at most n bytes by r. */
  function Round(w: nat, r: nat, n: nat): seq<(nat, Action)> {
    [(w, Turn), (r, Read(n)), (r, Turn)]
  }

  function Rounds(w: nat, r: nat, n: nat, k: nat): seq<(nat, Action)> {
    if k == 0 then [] else Round(w, r, n) + Rounds(w, r, n, k - 1)
  }

  /** A writer in the middle of src, a reader, and neither end closed. */
  ghost predicate Ready(s: State, w: nat, r: nat, src: seq<byte>, i: nat) {
    && Shape(s) && w < |s.procs| && r < |s.procs| && w != r && i <= |src| && s.readopen && !s.killed[w]
    && s.procs[r] == Idle && s.procs[w] == Writing(src, i)
  }

  ghost predicate Finished(s: State, w: nat, r: nat) {
    Shape(s) && w < |s.procs| && r < |s.procs| && s.procs[w] == s.procs[r] == Idle
  }

  lemma {:induction false} RunOn(s: State, a: seq<(nat, Action)>, b: seq<(nat, Action)>)
    requires Shape(s)
    ensures Run(s, a + b) == Run(Run(s, a), b)
  {
    if b == [] {
      assert a + b == a;
    } else {
      assert (a + b)[..|a + b| - 1] == a + b[..|b| - 1];
      RunOn(s, a, b[..|b| - 1]);
    }
  }

  lemma RunRound(s: State, w: nat, r: nat, n: nat)
    requires Shape(s)
    ensures Run(s, Round(w, r, n)) == Step(Step(Step(s, w, Turn), r, Read(n)), r, Turn)
  {
    hide Step;
    var run := Round(w, r, n);
    assert run[..2][..1] == run[..1];
    assert Run(s, run[..1]) == Step(s, w, Turn);
    assert Run(s, run[..2]) == Step(Run(s, run[..1]), r, Read(n));
  }

  /** A round puts all the rest into the pipe, or else fills it and makes room. */
  lemma OneRound(s: State, w: nat, r: nat, n: nat, src: seq<byte>, i: nat) returns (j: nat)
    requires Ready(s, w, r, src, i) && n > 0 && (s.contents != [] || i < |src|)
    ensures var t := Run(s, Round(w, r, n));
            && i <= j <= |src| && t.inserted == s.inserted + src[i..j]
            && (if j == |src| then Finished(t, w, r) else Ready(t, w, r, src, j) && |t.contents| < PIPESIZE)
            && (|s.contents| < PIPESIZE && i < |src| ==> i < j)
  {
    RunRound(s, w, r, n);
    WriterMoves(s, w, src, i);
    hide Run, Woken, WriteStep, ReadStep, Round;
    var t := Step(s, w, Turn);
    j :| PutUpTo(s, t, w, src, i, j);
    var u := Step(t, r, Read(n));
    assert u == t.(procs := t.procs[r := Reading(n)]);
    ReaderMoves(u, r, n);
  }

  lemma NoRun(s: State)
    requires Shape(s)
    ensures Run(s, []) == s
  {
  }

  lemma {:induction false} Arrives(s: State, w: nat, r: nat, n: nat, src: seq<byte>, i: nat) returns (k: nat)
    requires Ready(s, w, r, src, i) && n > 0 && i < |src|
    ensures var t := Run(s, Rounds(w, r, n, k));
            Finished(t, w, r) && t.inserted == s.inserted + src[i..]
    ensures k <= |src| - i + if |s.contents| == PIPESIZE then 1 else 0
    decreases |src| - i, |s.contents|
  {
    hide Run, Round;
    var j := OneRound(s, w, r, n, src, i);
    var t := Run(s, Round(w, r, n));
    var more := 0;
    NoRun(t);
    if j < |src| {
      more := Arrives(t, w, r, n, src, j);
    }
    k := more + 1;
    RunOn(s, Round(w, r, n), Rounds(w, r, n, more));
    assert Rounds(w, r, n, k) == Round(w, r, n) + Rounds(w, r, n, more);
    assert src[i..] == src[i..j] + src[j..];
  }

  /** Rounds of a writer and a reader, of any number of bytes at a time, carry
      a write of any length through the pipe: at some point the writer is
      through, and exactly src has been put behind what was there before. */
  lemma EverythingArrives(s: State, w: nat, r: nat, n: nat, src: seq<byte>, i: nat)
    requires Ready(s, w, r, src, i) && n > 0 && i < |src|
    ensures exists k: nat ::
              var t := Run(s, Rounds(w, r, n, k));
              k <= |src| - i + 1 && Finished(t, w, r) && t.inserted == s.inserted + src[i..]
  {
    hide Run, Ready, Finished, Rounds;
    var k := Arrives(s, w, r, n, src, i);
  }
}
