/** What log and cache mean for their callers, told by the calls and their
    answers alone: which contents a read gives, which contents a crash leaves,
    and which calls go ahead. */
module BlockHistory {
  import opened Blocks
  import opened BufferCache
  import opened Counting
  import opened LogFormat
  import opened Log
  import opened Transactions

  /** The calls of a run, the answers to them, and the blocks at its start. */
  datatype History = History(start: Image, ops: seq<Op>, answers: seq<Answer>)
  {
    predicate Ok(k: nat) {
      k <= |ops| == |answers|
    }

    /** Call k is this one and has gone ahead. */
    predicate Did(k: nat, op: Op)
      requires k < |ops| == |answers|
    {
      ops[k] == op && answers[k] != Refused
    }

    /** The contents last stored in the block's buffer by one of the first k calls. */
    function LastStored(k: nat, bn: nat): Block
      requires Ok(k) && bn < |start|
    {
      if k == 0 then start[bn]
      else if ops[k - 1].Store? && Did(k - 1, Store(bn, ops[k - 1].d)) then ops[k - 1].d
      else LastStored(k - 1, bn)
    }

    /** The contents last stored in the block before it was last logged. */
    function LastLogged(k: nat, bn: nat): Block
      requires Ok(k) && bn < |start|
    {
      if k == 0 then start[bn]
      else if Did(k - 1, LogWrite(bn)) then LastStored(k - 1, bn)
      else LastLogged(k - 1, bn)
    }

    /** How many operations have begun and not ended. */
    function Opened(k: nat): int
      requires Ok(k)
    {
      if k == 0 then 0
      else Opened(k - 1) + (if Did(k - 1, Begin) then 1 else 0) - (if Did(k - 1, End) then 1 else 0)
    }

    /** The last one to end has just done so. */
    predicate Closes(k: nat)
      requires 0 < k && Ok(k)
    {
      Did(k - 1, End) && Opened(k) == 0
    }

    /** What is last logged in the block when the last operation ends. */
    function Durable(k: nat, bn: nat): Block
      requires Ok(k) && bn < |start|
    {
      if k == 0 then start[bn] else if Closes(k) then LastLogged(k, bn) else Durable(k - 1, bn)
    }

    /** The blocks logged since. */
    ghost function LoggedBlocks(k: nat): set<nat>
      requires Ok(k)
    {
      if k == 0 || Closes(k) then {}
      else LoggedBlocks(k - 1)
           + if ops[k - 1].LogWrite? && Did(k - 1, ops[k - 1]) then {ops[k - 1].bn} else {}
    }

    /** The blocks that have been read and not released. */
    ghost function InHand(k: nat): set<nat>
      requires Ok(k)
    {
      if k == 0 then {}
      else
        match ops[k - 1]
        case Bread(bn) => InHand(k - 1) + if answers[k - 1] != Refused then {bn} else {}
        case Brelse(bn) => InHand(k - 1) - if answers[k - 1] != Refused then {bn} else {}
        case _ => InHand(k - 1)
    }

    /** Stored in since it was read or logged. */
    predicate Unlogged(k: nat, bn: nat)
      requires Ok(k)
    {
      k > 0 &&
      if ops[k - 1].Store? && Did(k - 1, Store(bn, ops[k - 1].d)) then true
      else if Did(k - 1, LogWrite(bn)) || Did(k - 1, Bread(bn)) then false
      else Unlogged(k - 1, bn)
    }

    /** Call k has to go ahead. */
    ghost predicate MustGo(lay: Layout, k: nat)
      requires k < |ops| == |answers|
    {
      match ops[k]
      case Begin => |LoggedBlocks(k)| + (Opened(k) + 1) * MAXOPBLOCKS <= LOGSIZE
      case Bread(bn) => lay.Home(bn) && bn !in InHand(k) && |LoggedBlocks(k)| + |InHand(k)| < NBUF
      case Store(bn, d) => bn in InHand(k)
      case LogWrite(bn) => bn in InHand(k) && Opened(k) > 0 && |LoggedBlocks(k)| < lay.size - 1
      case Brelse(bn) => bn in InHand(k) && !Unlogged(k, bn)
      case End => Opened(k) > 1 || (Opened(k) == 1 && InHand(k) == {})
    }

    /** The answers are right: a call goes ahead exactly when it has to, and a
        read gives what was last stored before the block was last logged. */
    ghost predicate Right(lay: Layout, k: nat)
      requires |start| == lay.blocks && k < |ops| == |answers|
    {
      && (answers[k] != Refused <==> MustGo(lay, k))
      && (answers[k] != Refused ==>
            if ops[k].Bread? then lay.Home(ops[k].bn) && answers[k] == Contents(LastLogged(k, ops[k].bn))
            else answers[k] == Accepted)
    }
  }

  /** The history of a run from a start with nothing logged and nobody active. */
  ghost predicate IsHistory(lay: Layout, h: History) {
    && |h.start| == lay.blocks && |h.ops| == |h.answers|
    && forall k :: 0 <= k < |h.ops| ==> h.answers[k] == Result(lay, Run(lay, Idle(h.start), h.ops, k), h.ops[k])
  }

  function Idle(start: Image): Spec {
    Spec(start, start, map[], [], 0)
  }

  /** The state after k calls is what the history says. */
  ghost predicate Matches(lay: Layout, h: History, k: nat, s: Spec)
    requires |h.start| == lay.blocks && h.Ok(k)
  {
    && CallsMatch(lay, h, k, s) && |s.view| == |s.committed| == lay.blocks
    && forall bn: nat :: bn < lay.blocks ==> BlockMatches(h, k, s, bn)
  }

  ghost predicate CallsMatch(lay: Layout, h: History, k: nat, s: Spec)
    requires h.Ok(k)
  {
    && s.outstanding == h.Opened(k) && s.held.Keys == h.InHand(k) && (forall bn :: bn in s.held ==> lay.Home(bn))
    && (forall bn :: bn in s.logged <==> bn in h.LoggedBlocks(k)) && Distinct(s.logged)
  }

  ghost predicate BlockMatches(h: History, k: nat, s: Spec, bn: nat)
    requires |s.view| == |s.committed| == |h.start| && h.Ok(k) && bn < |h.start|
  {
    && s.view[bn] == h.LastLogged(k, bn) && s.committed[bn] == h.Durable(k, bn)
    && (if bn in s.held then s.held[bn] == Held(h.LastStored(k, bn), h.Unlogged(k, bn)) else true)
    && ((bn in s.held && s.held[bn].changed) || h.LastStored(k, bn) == h.LastLogged(k, bn))
  }

  lemma {:induction false} ListedSize(s: seq<nat>, a: set<nat>)
    requires Distinct(s) && forall x :: x in s <==> x in a
    ensures |a| == |s|
  {
    if s == [] {
      assert a == {};
    } else {
      var last := s[|s| - 1];
      assert s == s[..|s| - 1] + [last];
      ListedSize(s[..|s| - 1], a - {last});
    }
  }

  lemma GoesAsItMust(lay: Layout, h: History, k: nat, s: Spec)
    requires |h.start| == lay.blocks && k < |h.ops| == |h.answers| && Matches(lay, h, k, s)
    ensures Goes(lay, s, h.ops[k]) <==> h.MustGo(lay, k)
  {
    ListedSize(s.logged, h.LoggedBlocks(k));
    assert |s.held| == |s.held.Keys| && (s.held == map[] <==> s.held.Keys == {});
    assert h.ops[k].Brelse? && h.ops[k].bn in s.held ==> BlockMatches(h, k, s, h.ops[k].bn);
    hide BlockMatches;
  }

  lemma HeldStep(lay: Layout, h: History, k: nat, s: Spec)
    requires |h.start| == lay.blocks == |s.view| && k < |h.ops| == |h.answers| && CallsMatch(lay, h, k, s)
    requires h.answers[k] == Result(lay, s, h.ops[k])
    ensures var t := Step(lay, s, h.ops[k]);
            && t.outstanding == h.Opened(k + 1) && t.held.Keys == h.InHand(k + 1)
            && forall bn :: bn in t.held ==> lay.Home(bn)
  {
    hide Distinct, History.LoggedBlocks;
    var t := Step(lay, s, h.ops[k]);
    assert h.ops[k].Brelse? ==> (s.held - {h.ops[k].bn}).Keys == s.held.Keys - {h.ops[k].bn};
  }

  lemma LoggedStep(lay: Layout, h: History, k: nat, s: Spec)
    requires |h.start| == lay.blocks == |s.view| && k < |h.ops| == |h.answers| && CallsMatch(lay, h, k, s)
    requires h.answers[k] == Result(lay, s, h.ops[k])
    ensures var t := Step(lay, s, h.ops[k]);
            (forall bn :: bn in t.logged <==> bn in h.LoggedBlocks(k + 1)) && Distinct(t.logged)
  {
    CallsStepOpened(lay, h, k, s);
    hide History.InHand;
  }

  lemma CallsStep(lay: Layout, h: History, k: nat, s: Spec)
    requires |h.start| == lay.blocks == |s.view| && k < |h.ops| == |h.answers| && CallsMatch(lay, h, k, s)
    requires h.answers[k] == Result(lay, s, h.ops[k])
    ensures CallsMatch(lay, h, k + 1, Step(lay, s, h.ops[k]))
  {
    HeldStep(lay, h, k, s);
    LoggedStep(lay, h, k, s);
    hide Step;
  }

  lemma BlockStep(lay: Layout, h: History, k: nat, s: Spec, bn: nat)
    requires |h.start| == lay.blocks && k < |h.ops| == |h.answers| && CallsMatch(lay, h, k, s) && bn < lay.blocks
    requires |s.view| == |s.committed| == lay.blocks && BlockMatches(h, k, s, bn)
    requires h.answers[k] == Result(lay, s, h.ops[k])
    ensures |Step(lay, s, h.ops[k]).committed| == lay.blocks && BlockMatches(h, k + 1, Step(lay, s, h.ops[k]), bn)
  {
    CallsStepOpened(lay, h, k, s);
  }

  lemma CallsStepOpened(lay: Layout, h: History, k: nat, s: Spec)
    requires |h.start| == lay.blocks == |s.view| && k < |h.ops| == |h.answers| && CallsMatch(lay, h, k, s)
    requires h.answers[k] == Result(lay, s, h.ops[k])
    ensures h.Closes(k + 1) <==> h.ops[k] == End && Goes(lay, s, End) && s.outstanding == 1
  {
  }

  lemma OneCall(lay: Layout, h: History, k: nat, s: Spec)
    requires |h.start| == lay.blocks && k < |h.ops| == |h.answers| && Matches(lay, h, k, s)
    requires h.answers[k] == Result(lay, s, h.ops[k])
    ensures Matches(lay, h, k + 1, Step(lay, s, h.ops[k]))
  {
    var t := Step(lay, s, h.ops[k]);
    CallsStep(lay, h, k, s);
    CommittedSize(lay, s, h.ops[k]);
    hide Step, CallsMatch, Result, BlockMatches;
    var next := k + 1;
    forall bn: nat | bn < lay.blocks ensures BlockMatches(h, next, t, bn) {
      BlockStep(lay, h, k, s, bn);
    }
  }

  lemma CommittedSize(lay: Layout, s: Spec, op: Op)
    requires |s.view| == |s.committed| == lay.blocks
    ensures |Step(lay, s, op).committed| == lay.blocks
  {
  }

  lemma StartMatches(lay: Layout, h: History)
    requires |h.start| == lay.blocks && h.Ok(0)
    ensures Matches(lay, h, 0, Idle(h.start))
  {
  }

  lemma {:induction false} RunMatches(lay: Layout, h: History, k: nat)
    requires IsHistory(lay, h) && k <= |h.ops|
    ensures Matches(lay, h, k, Run(lay, Idle(h.start), h.ops, k))
  {
    hide Matches, Step, Result;
    if k == 0 {
      StartMatches(lay, h);
    } else {
      RunMatches(lay, h, k - 1);
      OneCall(lay, h, k - 1, Run(lay, Idle(h.start), h.ops, k - 1));
    }
  }

  /** Every answer of every run is right. */
  lemma AnswersAreRight(lay: Layout, h: History, k: nat)
    requires IsHistory(lay, h) && k < |h.ops|
    ensures h.Right(lay, k)
  {
    var s := Run(lay, Idle(h.start), h.ops, k);
    RunMatches(lay, h, k);
    GoesAsItMust(lay, h, k, s);
    hide Run, History.MustGo;
    if h.ops[k].Bread? && Goes(lay, s, h.ops[k]) {
      assert BlockMatches(h, k, s, h.ops[k].bn);
    }
  }

  /** What is committed after k calls: for every block, what was last logged in
      it when the last operation ended. */
  lemma CommittedIsDurable(lay: Layout, h: History, k: nat, bn: nat)
    requires IsHistory(lay, h) && k <= |h.ops| && bn < lay.blocks
    ensures var s := Run(lay, Idle(h.start), h.ops, k); |s.committed| == lay.blocks && s.committed[bn] == h.Durable(k, bn)
  {
    RunMatches(lay, h, k);
    hide Run;
    assert BlockMatches(h, k, Run(lay, Idle(h.start), h.ops, k), bn);
  }
}
