/** From power on to power off, any number of times: initlog, any run of file
    system operations, a crash after any of the writes, and all over again. */
module PowerCycles {
  import opened Blocks
  import opened BufferCache
  import opened LogFormat
  import opened Log
  import opened Transactions
  import opened BlockHistory

  /** What the operations find after recovery. */
  function BootSpec(lay: Layout, d: Image): Spec
    requires WellFormed(lay, d)
  {
    Idle(Recovered(lay, d))
  }

  /** binit and initlog, on any disk that a crash can have left. */
  method Boot(d: Image, lay: Layout) returns (session: Session)
    requires WellFormed(lay, d)
    ensures fresh(session) && fresh(session.log) && fresh(session.log.block) && fresh(session.log.cache)
    ensures fresh(session.log.cache.disk) && fresh(session.log.cache.buf)
    ensures fresh(session.log.cache.prev) && fresh(session.log.cache.next)
    ensures session.log.lay == lay && session.Refines(BootSpec(lay, d))
    ensures session.log.cache.disk.images == RecoveryImages(lay, d)
  {
    hide Recovered, RecoveryImages, BCache.Valid;
    var disk := new Disk(d);
    var cache := new BCache(disk);
    var log := new Log(cache, lay);
    session := new Session(log);
    assert log.block[..log.n] == [];
  }

  /** The disk between two writes recovers to what is committed. */
  lemma DiskIsCommitted(session: Session, s: Spec)
    requires session.Refines(s)
    ensures Commits(session.log.lay, s, session.log.cache.disk.blocks)
  {
    var lay, d := session.log.lay, session.log.cache.disk.blocks;
    hide BCache.Valid, HoldsBuffers, BufferInv;
    assert HeadList(d[lay.start]) == [];
    ClearAgain(lay, d);
  }

  /** What a crash in the last of these operations leaves: the state committed
      before that operation, or the one after it. */
  ghost predicate Survives(lay: Layout, d: Image, ops: seq<Op>, next: Image)
    requires WellFormed(lay, d)
  {
    var n := |ops|;
    || Commits(lay, Run(lay, BootSpec(lay, d), ops, n), next)
    || (n > 0 && Commits(lay, Run(lay, BootSpec(lay, d), ops, n - 1), next))
  }

  ghost predicate Answers(lay: Layout, d: Image, ops: seq<Op>, results: seq<Answer>)
    requires WellFormed(lay, d)
  {
    |results| == |ops| && forall k :: 0 <= k < |ops| ==>
      results[k] == Result(lay, Run(lay, BootSpec(lay, d), ops, k), ops[k])
  }

  /** The disk recovers to what is durable after the first m calls. */
  ghost predicate Leaves(lay: Layout, h: History, m: nat, next: Image)
    requires |h.start| == lay.blocks && h.Ok(m)
  {
    WellFormed(lay, next) && forall bn: nat :: lay.Home(bn) ==> Recovered(lay, next)[bn] == h.Durable(m, bn)
  }

  /** All answers are right, and a crash in the last call leaves what was durable
      before that call, or what is after it. */
  ghost predicate IsCycle(lay: Layout, d: Image, ops: seq<Op>, results: seq<Answer>, next: Image)
    requires WellFormed(lay, d)
  {
    var h := History(Recovered(lay, d), ops, results);
    && |results| == |ops| && (forall k: nat :: k < |ops| ==> h.Right(lay, k))
    && (Leaves(lay, h, |ops|, next) || (|ops| > 0 && Leaves(lay, h, |ops| - 1, next)))
  }

  /** From the block map to the calls alone. */
  lemma CycleMeans(lay: Layout, d: Image, ops: seq<Op>, results: seq<Answer>, next: Image)
    requires WellFormed(lay, d) && Answers(lay, d, ops, results) && Survives(lay, d, ops, next)
    ensures IsCycle(lay, d, ops, results, next)
  {
    hide Recovered, WellFormed, Answers, Survives, Leaves, History.Right, IsHistory;
    HistoryOf(lay, d, ops, results);
    AllRight(lay, History(Recovered(lay, d), ops, results));
    LeftOf(lay, d, ops, results, next);
  }

  lemma HistoryOf(lay: Layout, d: Image, ops: seq<Op>, results: seq<Answer>)
    requires WellFormed(lay, d) && Answers(lay, d, ops, results)
    ensures |results| == |ops| && IsHistory(lay, History(Recovered(lay, d), ops, results))
  {
    hide Recovered, Result, Run;
  }

  lemma AllRight(lay: Layout, h: History)
    requires IsHistory(lay, h)
    ensures forall k: nat :: k < |h.ops| ==> h.Right(lay, k)
  {
    forall k: nat | k < |h.ops| ensures h.Right(lay, k) {
      AnswersAreRight(lay, h, k);
    }
  }

  lemma LeftOf(lay: Layout, d: Image, ops: seq<Op>, results: seq<Answer>, next: Image)
    requires WellFormed(lay, d) && IsHistory(lay, History(Recovered(lay, d), ops, results)) && Survives(lay, d, ops, next)
    ensures var h := History(Recovered(lay, d), ops, results);
            Leaves(lay, h, |ops|, next) || (|ops| > 0 && Leaves(lay, h, |ops| - 1, next))
  {
    hide Recovered, WellFormed, Commits, Leaves, Result, Run;
    var h, n := History(Recovered(lay, d), ops, results), |ops|;
    if Commits(lay, Run(lay, Idle(h.start), ops, n), next) {
      LeavesMeans(lay, h, n, next);
    } else {
      LeavesMeans(lay, h, n - 1, next);
    }
  }

  lemma LeavesMeans(lay: Layout, h: History, m: nat, next: Image)
    requires IsHistory(lay, h) && m <= |h.ops| && Commits(lay, Run(lay, Idle(h.start), h.ops, m), next)
    ensures Leaves(lay, h, m, next)
  {
    hide Recovered, Run, WellFormed, Result, History.Durable;
    forall bn: nat | lay.Home(bn) ensures Recovered(lay, next)[bn] == h.Durable(m, bn) {
      CommittedIsDurable(lay, h, m, bn);
    }
  }

  /** One time the power is on.  The crash comes after `cut` writes of the last
      operation, or of recovery when there is none. */
  method PowerCycle(d: Image, lay: Layout, ops: seq<Op>, cut: nat)
      returns (results: seq<Answer>, next: Image)
    requires WellFormed(lay, d)
    ensures WellFormed(lay, next) && IsCycle(lay, d, ops, results, next)
  {
    hide Recovered, Answers, IsCycle;
    results, next := Cycle(d, lay, ops, cut);
    CycleMeans(lay, d, ops, results, next);
    hide WellFormed;
  }

  method Cycle(d: Image, lay: Layout, ops: seq<Op>, cut: nat) returns (results: seq<Answer>, next: Image)
    requires WellFormed(lay, d)
    ensures Answers(lay, d, ops, results) && Survives(lay, d, ops, next)
  {
    hide Recovered, RecoveryImages, Session.Refines, Commits, Result, Transactions.Step, Run;
    var session := Boot(d, lay);
    var disk := session.log.cache.disk;
    ghost var s := BootSpec(lay, d);
    if ops == [] {
      RunNothing(lay, s, ops);
      results := [];
      next := if cut == 0 then d else if cut <= |disk.images| then disk.images[cut - 1] else disk.blocks;
      if cut <= |disk.images| {
        RecoverySurvives(lay, d, cut);
      }
      DiskIsCommitted(session, s);
      return;
    }
    var n := |ops| - 1;
    RunPrefix(lay, s, ops, n);
    results := session.RunAll(ops[..n], s);
    DiskIsCommitted(session, Run(lay, s, ops, n));
    var before, written := disk.blocks, |disk.images|;
    var r := session.Perform(ops[n], Run(lay, s, ops, n));
    RunNext(lay, s, ops, n);
    DiskIsCommitted(session, Run(lay, s, ops, n + 1));
    results := results + [r];
    next := if cut == 0 then before
            else if written + cut <= |disk.images| then disk.images[written + cut - 1]
            else disk.blocks;
  }

  lemma RunNothing(lay: Layout, s: Spec, ops: seq<Op>)
    requires |s.view| == lay.blocks
    ensures Run(lay, s, ops, 0) == s
  {
  }

  lemma RunNext(lay: Layout, s: Spec, ops: seq<Op>, k: nat)
    requires |s.view| == lay.blocks && k < |ops|
    ensures Run(lay, s, ops, k + 1) == Transactions.Step(lay, Run(lay, s, ops, k), ops[k])
  {
  }

  lemma {:induction false} RunPrefixTo(lay: Layout, s: Spec, ops: seq<Op>, n: nat, k: nat)
    requires |s.view| == lay.blocks && k <= n <= |ops|
    ensures Run(lay, s, ops[..n], k) == Run(lay, s, ops, k)
  {
    if k > 0 {
      RunPrefixTo(lay, s, ops, n, k - 1);
    }
  }

  lemma RunPrefix(lay: Layout, s: Spec, ops: seq<Op>, n: nat)
    requires |s.view| == lay.blocks && n <= |ops|
    ensures forall k :: 0 <= k <= n ==> Run(lay, s, ops[..n], k) == Run(lay, s, ops, k)
  {
    forall k | 0 <= k <= n ensures Run(lay, s, ops[..n], k) == Run(lay, s, ops, k) {
      RunPrefixTo(lay, s, ops, n, k);
    }
  }

  /** A crash in recovery loses nothing. */
  lemma RecoverySurvives(lay: Layout, d: Image, cut: nat)
    requires WellFormed(lay, d) && cut <= |RecoveryImages(lay, d)|
    ensures Commits(lay, BootSpec(lay, d), if cut == 0 then d else RecoveryImages(lay, d)[cut - 1])
  {
    hide Recovered, RecoveryImages;
    if cut > 0 {
      RecoveryIsIdempotent(lay, d, cut - 1);
    }
  }

  /** Any number of times, each with operations and a crash of its own: every
      boot finds what was durable when the one before crashed, and all answers
      are right from there. */
  method PowerCycles(d: Image, lay: Layout, days: seq<(seq<Op>, nat)>)
      returns (disks: seq<Image>, results: seq<seq<Answer>>)
    requires WellFormed(lay, d)
    ensures |disks| == |days| + 1 && |results| == |days| && disks[0] == d
    ensures forall c :: 0 <= c < |disks| ==> WellFormed(lay, disks[c])
    ensures forall c :: 0 <= c < |days| ==> IsCycle(lay, disks[c], days[c].0, results[c], disks[c + 1])
  {
    hide WellFormed, Recovered, Run, IsCycle;
    disks, results := [d], [];
    var k := 0;
    while k < |days|
      invariant 0 <= k <= |days| && |disks| == k + 1 && |results| == k && disks[0] == d
      invariant forall c :: 0 <= c <= k ==> WellFormed(lay, disks[c])
      invariant forall c :: 0 <= c < k ==> IsCycle(lay, disks[c], days[c].0, results[c], disks[c + 1])
    {
      var answers, next := PowerCycle(disks[k], lay, days[k].0, days[k].1);
      disks, results := disks + [next], results + [answers];
      k := k + 1;
    }
  }
}
