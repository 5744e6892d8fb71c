/** lab2/user/pingpong.c: two processes that print in turn, on two of the
    semaphores of lab2/kernel/sem_syscall.c. */
module PingPong {
  import opened Semaphore

  datatype Word = Ping | Pong

  /** Where a loop is: the father prints, raises the child's semaphore and
      lowers its own; the child lowers, prints and raises. */
  datatype At = Print | Raise | Lower | Finished

  /** sems has the semaphores, with the father as process 0 and the child as
      process 1; turns counts each loop's complete turns. */
  datatype Game = Game(n: nat, sems: State, fatherSem: nat, childSem: nat, father: At, fathers: nat,
                       child: At, children: nat, printed: seq<Word>)

  /** Both semaphores opened with 0, and the child forked. */
  ghost predicate Begins(g: Game) {
    && Shape(g.sems) && |g.sems.procs| == 2 && g.sems.procs[0] == g.sems.procs[1] == Idle
    && g.fatherSem != g.childSem && g.fatherSem < MAX_SEM && g.childSem < MAX_SEM
    && Fresh(g.sems, g.fatherSem) && Fresh(g.sems, g.childSem)
    && g.fathers == g.children == 0 && g.printed == []
    && g.father == (if g.n == 0 then Finished else Print) && g.child == (if g.n == 0 then Finished else Lower)
  }

  ghost predicate Fresh(s: State, sem: nat)
    requires Shape(s) && sem < MAX_SEM
  {
    s.value[sem] == s.first[sem] == 0 && s.ups[sem] == s.downs[sem] == 0
  }

  /** sem_down's next step: the call, or another turn of its loop. */
  function LowerStep(s: State, p: nat, sem: nat): (t: State)
    requires Shape(s) && p < |s.procs|
    ensures Shape(t) && |t.procs| == |s.procs|
  {
    Semaphore.Step(s, p, if s.procs[p] == Idle then Down(sem) else Retry)
  }

  function FatherStep(g: Game): Game
    requires Shape(g.sems) && |g.sems.procs| == 2
  {
    match g.father
    case Print => g.(printed := g.printed + [Ping], father := Raise)
    case Raise => g.(sems := Semaphore.Step(g.sems, 0, Up(g.childSem)), father := Lower)
    case Lower =>
      var t := LowerStep(g.sems, 0, g.fatherSem);
      if t.procs[0] != Idle then g.(sems := t)
      else g.(sems := t, fathers := g.fathers + 1, father := if g.fathers + 1 < g.n then Print else Finished)
    case Finished => g
  }

  function ChildStep(g: Game): Game
    requires Shape(g.sems) && |g.sems.procs| == 2
  {
    match g.child
    case Lower =>
      var t := LowerStep(g.sems, 1, g.childSem);
      if t.procs[1] != Idle then g.(sems := t) else g.(sems := t, child := Print)
    case Print => g.(printed := g.printed + [Pong], child := Raise)
    case Raise =>
      g.(sems := Semaphore.Step(g.sems, 1, Up(g.fatherSem)), children := g.children + 1,
         child := if g.children + 1 < g.n then Lower else Finished)
    case Finished => g
  }

  /** A process that is not done and not asleep can go on. */
  predicate Enabled(g: Game, father: bool)
    requires |g.sems.procs| == 2
  {
    if father then g.father != Finished && !g.sems.procs[0].Asleep?
    else g.child != Finished && !g.sems.procs[1].Asleep?
  }

  function Move(g: Game, father: bool): (h: Game)
    requires Shape(g.sems) && |g.sems.procs| == 2
    ensures Shape(h.sems) && |h.sems.procs| == 2 && h.n == g.n
  {
    if !Enabled(g, father) then g else if father then FatherStep(g) else ChildStep(g)
  }

  /** An interleaving: true where the father moves. */
  function Play(g: Game, run: seq<bool>): (h: Game)
    requires Shape(g.sems) && |g.sems.procs| == 2
    ensures Shape(h.sems) && |h.sems.procs| == 2 && h.n == g.n
  {
    if run == [] then g else Move(Play(g, run[..|run| - 1]), run[|run| - 1])
  }

  /** ping, pong, ping, ... */
  function Alternate(k: nat): (r: seq<Word>)
    ensures |r| == k && forall i :: 0 <= i < k ==> r[i] == if i % 2 == 0 then Ping else Pong
  {
    if k == 0 then [] else Alternate(k - 1) + [if k % 2 == 1 then Ping else Pong]
  }

  function Pings(g: Game): nat {
    g.fathers + if g.father == Raise || g.father == Lower then 1 else 0
  }

  function Pongs(g: Game): nat {
    g.children + if g.child == Raise then 1 else 0
  }

  /** How far each loop is, told by the semaphores' counts. */
  ghost predicate CountsOk(g: Game)
    requires Shape(g.sems) && g.fatherSem < MAX_SEM && g.childSem < MAX_SEM
  {
    && g.sems.ups[g.childSem] == g.fathers + (if g.father == Lower then 1 else 0)
    && g.sems.downs[g.fatherSem] == g.fathers
    && g.sems.downs[g.childSem] == g.children + (if g.child == Print || g.child == Raise then 1 else 0)
    && g.sems.ups[g.fatherSem] == g.children
  }

  ghost predicate GameOk(g: Game) {
    && Shape(g.sems) && |g.sems.procs| == 2 && g.fatherSem != g.childSem
    && g.fatherSem < MAX_SEM && g.childSem < MAX_SEM
    && (g.sems.procs[0] == Idle || (g.father == Lower && WaitsOn(g.sems.procs[0], g.fatherSem)))
    && (g.sems.procs[1] == Idle || (g.child == Lower && WaitsOn(g.sems.procs[1], g.childSem)))
    && OpenOk(g.sems, g.fatherSem) && OpenOk(g.sems, g.childSem) && CountsOk(g)
    && (if g.father == Finished then g.fathers == g.n else g.fathers < g.n)
    && (if g.child == Finished then g.children == g.n else g.children < g.n)
    && g.printed == Alternate(Pings(g) + Pongs(g))
  }

  ghost predicate OpenOk(s: State, sem: nat)
    requires Shape(s) && sem < MAX_SEM
  {
    && s.value[sem] >= 0 && s.value[sem] + s.downs[sem] == s.ups[sem]
    && forall p :: 0 <= p < |s.procs| && s.procs[p] == Asleep(sem) ==> s.value[sem] == 0
  }

  /** Each process waits for the other one's last step. */
  lemma InTurn(g: Game)
    requires GameOk(g)
    ensures g.fathers <= g.children <= Pongs(g) <= Pings(g) <= g.fathers + 1
    ensures g.father == Print ==> Pings(g) == Pongs(g)
    ensures g.child == Print ==> Pings(g) == Pongs(g) + 1
  {
  }

  lemma BeginsOk(g: Game)
    requires Begins(g)
    ensures GameOk(g)
  {
  }

  lemma FatherRaisesOk(g: Game)
    requires GameOk(g) && g.father == Raise
    ensures GameOk(FatherStep(g))
  {
    hide Alternate;
    InTurn(g);
  }

  lemma FatherLowersOk(g: Game)
    requires GameOk(g) && Enabled(g, true) && g.father == Lower
    ensures GameOk(FatherStep(g))
  {
    hide Alternate;
    InTurn(g);
  }

  lemma FatherOk(g: Game)
    requires GameOk(g) && Enabled(g, true)
    ensures GameOk(FatherStep(g))
  {
    if g.father == Raise {
      FatherRaisesOk(g);
    } else if g.father == Lower {
      FatherLowersOk(g);
    } else {
      InTurn(g);
    }
  }

  lemma ChildRaisesOk(g: Game)
    requires GameOk(g) && g.child == Raise
    ensures GameOk(ChildStep(g))
  {
    hide Alternate;
    InTurn(g);
  }

  lemma ChildLowersOk(g: Game)
    requires GameOk(g) && Enabled(g, false) && g.child == Lower
    ensures GameOk(ChildStep(g))
  {
    hide Alternate;
    InTurn(g);
  }

  lemma ChildOk(g: Game)
    requires GameOk(g) && Enabled(g, false)
    ensures GameOk(ChildStep(g))
  {
    if g.child == Raise {
      ChildRaisesOk(g);
    } else if g.child == Lower {
      ChildLowersOk(g);
    } else {
      InTurn(g);
    }
  }

  lemma {:induction false} AlwaysOk(g: Game, run: seq<bool>)
    requires Begins(g)
    ensures GameOk(Play(g, run))
  {
    if run == [] {
      BeginsOk(g);
    } else {
      var h := Play(g, run[..|run| - 1]);
      AlwaysOk(g, run[..|run| - 1]);
      if Enabled(h, run[|run| - 1]) {
        if run[|run| - 1] {
          FatherOk(h);
        } else {
          ChildOk(h);
        }
      }
    }
  }

  /** The work that is left, with the sleep that an empty semaphore costs. */
  function Left(g: Game): int
    requires |g.sems.procs| == 2
  {
    4 * (3 * (g.n - g.fathers) - (if g.father == Raise then 1 else if g.father == Lower then 2 else 0))
    + 4 * (3 * (g.n - g.children) - (if g.child == Print then 1 else if g.child == Raise then 2 else 0))
    + (if g.sems.procs[0].Asleep? then 0 else 1) + (if g.sems.procs[1].Asleep? then 0 else 1)
  }

  lemma FatherWorks(g: Game)
    requires GameOk(g) && Enabled(g, true)
    ensures Left(FatherStep(g)) < Left(g)
  {
    hide Alternate;
  }

  lemma ChildWorks(g: Game)
    requires GameOk(g) && Enabled(g, false)
    ensures Left(ChildStep(g)) < Left(g)
  {
    hide Alternate;
  }

  lemma MoveWorks(g: Game, father: bool)
    requires GameOk(g) && Enabled(g, father)
    ensures 0 <= Left(Move(g, father)) < Left(g)
  {
    hide FatherStep, ChildStep, Left, CountsOk, OpenOk, Alternate;
    if father {
      FatherOk(g);
      FatherWorks(g);
      LeftPositive(FatherStep(g));
    } else {
      ChildOk(g);
      ChildWorks(g);
      LeftPositive(ChildStep(g));
    }
  }

  lemma LeftPositive(g: Game)
    requires GameOk(g)
    ensures Left(g) >= 0
  {
    hide Alternate, CountsOk, OpenOk;
  }

  /** A state in which neither can go on is the end. */
  lemma StuckIsDone(g: Game)
    requires GameOk(g) && !Enabled(g, true) && !Enabled(g, false)
    ensures g.father == g.child == Finished && g.printed == Alternate(2 * g.n)
    ensures g.sems.procs[0] == g.sems.procs[1] == Idle
  {
    InTurn(g);
  }

  /** In every interleaving, what has been printed is ping and pong in turn, at
      most n of each; and somebody can go on until there are n of each. */
  lemma StrictAlternation(g: Game, run: seq<bool>)
    requires Begins(g)
    ensures var h := Play(g, run);
            && h.printed <= Alternate(2 * g.n)
            && (Enabled(h, true) || Enabled(h, false) || h.printed == Alternate(2 * g.n))
  {
    hide Play;
    var h := Play(g, run);
    AlwaysOk(g, run);
    InTurn(h);
    if !Enabled(h, true) && !Enabled(h, false) {
      StuckIsDone(h);
    }
  }

  /** Nothing but moves that change something. */
  ghost predicate AllMove(g: Game, run: seq<bool>)
    requires Shape(g.sems) && |g.sems.procs| == 2
  {
    run == [] || (AllMove(g, run[..|run| - 1]) && Enabled(Play(g, run[..|run| - 1]), run[|run| - 1]))
  }

  /** No run goes on for ever. */
  lemma {:induction false} EveryRunEnds(g: Game, run: seq<bool>)
    requires Begins(g) && AllMove(g, run)
    ensures 0 <= Left(Play(g, run)) <= 24 * g.n + 2 - |run|
  {
    hide GameOk, Left, Enabled, Move;
    if run == [] {
      StartLeft(g);
      BeginsOk(g);
      LeftPositive(g);
    } else {
      var k := |run| - 1;
      EveryRunEnds(g, run[..k]);
      AlwaysOk(g, run[..k]);
      MoveWorks(Play(g, run[..k]), run[k]);
    }
  }

  lemma StartLeft(g: Game)
    requires Begins(g)
    ensures Left(g) <= 24 * g.n + 2
  {
  }
}
