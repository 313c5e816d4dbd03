// Termination of the program mode, and its stuck states.

module ProgramProgress {
  import opened Arithmetic
  import opened Counting
  import opened ProgramRunner
  import opened ProgramSemaphores
  import opened ProgramHistory
  import opened ProgramTheorems

  // Turns of thread 0 behind it; a full round is 4 * N + 2 of them.
  function MasterIndex(n: nat, m: Master): int {
    m.round * (4 * n + 2) +
    (match m.pc
     case ProbesStart => 0
     case Fork => 1
     case GatherReady => 2 + m.i
     case PostGo => 2 + n + m.i
     case WaitChild => 2 + 2 * n
     case GatherFinished => 3 + 2 * n + m.i
     case PostLeave => 2 + 3 * n + m.i
     case ProbesStop => 1 + 4 * n)
  }

  ghost function Work(s: State): int {
    MasterIndex(|s.lanes|, s.master) + Sum(Clocks(s.lanes))
  }

  function WorkBound(c: Config): int {
    c.Rounds() * (4 * c.nbProcess + 2) + 8 * c.Rounds() * c.nbProcess
  }

  lemma MasterWorks(c: Config, s: State)
    requires MasterOk(c, s) && |s.lanes| > 0
    ensures MasterIndex(|s.lanes|, NextMaster(|s.lanes|, s.master)) > MasterIndex(|s.lanes|, s.master)
  {
    if s.master.pc.ProbesStop? {
      var n, r := |s.lanes|, s.master.round;
      assert (r + 1) * (4 * n + 2) == r * (4 * n + 2) + 4 * n + 2;
    }
  }

  lemma MasterLanesWork(s: State, tok: nat)
    requires |s.lanes| > 0 && SemInv(s)
    requires s.master.pc.WaitChild? ==> s.lanes[0].pc.Zombie?
    ensures Sum(Clocks(MasterApply(s, tok).lanes)) >= Sum(Clocks(s.lanes))
  {
    if s.master.pc.Fork? || s.master.pc.WaitChild? {
      if s.master.pc.Fork? { LaneZeroAtFork(s); }
      var x' := MasterApply(s, tok).lanes[0];
      ClocksUpdate(s.lanes, 0, x');
      SumUpdate(Clocks(s.lanes), 0, Clock(x'));
    }
  }

  lemma LaneWorks(s: State, w: nat)
    requires w < |s.lanes|
    ensures Sum(Clocks(s.lanes[w := NextLane(s.lanes[w])])) > Sum(Clocks(s.lanes))
  {
    ClocksUpdate(s.lanes, w, NextLane(s.lanes[w]));
    SumUpdate(Clocks(s.lanes), w, Clock(NextLane(s.lanes[w])));
  }

  lemma StepWorks(c: Config, s: State, st: Step)
    requires Shape(c, s) && SemInv(s) && Enabled(c, s, st)
    ensures Work(Apply(c, s, st)) > Work(s)
  {
    match st {
      case LaneStep(w, tok) => LaneWorks(s, w);
      case MasterStep(tok) =>
        MasterWorks(c, s);
        MasterLanesWork(s, tok);
    }
  }

  lemma MasterBounded(c: Config, s: State)
    requires Shape(c, s)
    ensures MasterIndex(|s.lanes|, s.master) <= c.Rounds() * (4 * c.nbProcess + 2)
  {
    RoundsBehind(s.master.round, 4 * c.nbProcess + 2, c.Rounds());
  }

  lemma RoundsBehind(r: nat, k: nat, rounds: nat)
    requires r <= rounds
    ensures r * k <= rounds * k && (r < rounds ==> r * k + k <= rounds * k)
  {
    MulMonotone(k, r, rounds);
    if r < rounds { MulMonotone(k, r + 1, rounds); }
    assert r * k == k * r && rounds * k == k * rounds && k * (r + 1) == k * r + k;
  }

  lemma WorkBounded(c: Config, s: State)
    requires Shape(c, s)
    ensures Work(s) <= WorkBound(c)
  {
    MasterBounded(c, s);
    forall w | 0 <= w < |s.lanes| ensures Clocks(s.lanes)[w] <= 8 * c.Rounds() {
      assert LaneOk(c, w, s.lanes[w]);
    }
    SumBound(Clocks(s.lanes), 8 * c.Rounds());
  }

  /** Every interleaving is finite: its length is at most a fixed bound. */
  lemma {:induction false} RunsAreFinite(c: Config, s: State, st: seq<Step>)
    requires Inv(c, s) && Run(c, s, st)
    ensures |st| <= WorkBound(c) - Work(s)
    decreases |st|
  {
    if st == [] {
      WorkBounded(c, s);
    } else {
      StepWorks(c, s, st[0]);
      StepKeepsInv(c, s, st[0]);
      RunsAreFinite(c, Apply(c, s, st[0]), st[1..]);
    }
  }

  // A lane that can move without a token.
  predicate Free(c: Config, w: nat, x: Lane) {
    match x.pc
    case NotForked => w != 0 && x.round < c.Rounds()
    case WaitGo => false
    case Zombie => w != 0
    case WaitLeave => false
    case _ => true
  }

  // Nothing moves: what that says about each lane and about the semaphores.
  lemma StuckMeans(c: Config, s: State, w: nat)
    requires Stuck(c, s) && w < |s.lanes|
    ensures !Free(c, w, s.lanes[w])
    ensures s.lanes[w].pc.WaitGo? ==> s.process == multiset{}
    ensures s.lanes[w].pc.WaitLeave? ==> s.processEnd == multiset{}
    ensures s.master.pc.GatherReady? || s.master.pc.GatherFinished? ==> s.father == multiset{}
    ensures s.master.pc.ProbesStart? || s.master.pc.GatherReady? || s.master.pc.WaitChild?
            || s.master.pc.GatherFinished?
    ensures s.master.pc.ProbesStart? ==> s.master.round >= c.Rounds()
    ensures s.master.pc.WaitChild? ==> !s.lanes[0].pc.Zombie?
  {
    assert !Enabled(c, s, LaneStep(w, 0)) && !Enabled(c, s, MasterStep(0));
    if tok :| tok in s.process { assert !Enabled(c, s, LaneStep(w, tok)); }
    if tok :| tok in s.processEnd { assert !Enabled(c, s, LaneStep(w, tok)); }
    if tok :| tok in s.father { assert !Enabled(c, s, MasterStep(tok)); }
  }

  lemma CountsOf(s: State)
    requires |s.lanes| > 0 && SemInv(s)
    ensures Counts(Clocks(s.lanes), PhaseOf(s.master.pc), 8 * s.master.round, s.master.i,
                   |s.father|, |s.process|, |s.processEnd|)
  {
  }

  // While thread 0 gathers and finds no token, some child is not ready yet.
  lemma NotReady(cs: seq<int>, b: int, i: nat, p: int, e: int) returns (w: nat)
    requires |cs| > 0 && Counts(cs, Gathering, b, i, 0, p, e)
    ensures w < |cs| && b - 1 <= cs[w] < b + 2 && (w == 0 ==> cs[w] == b + 1) && (cs[w] == b - 1 ==> e > 0)
  {
    CountExtremes(cs, b + 2);
    w :| w < |cs| && cs[w] < b + 2;
    CountExtremes(cs, b);
  }

  lemma NotStuckGathering(c: Config, s: State)
    requires Shape(c, s) && SemInv(s) && s.master.pc.GatherReady?
    ensures !Stuck(c, s)
  {
    if Stuck(c, s) {
      var cs := Clocks(s.lanes);
      CountsOf(s);
      StuckMeans(c, s, 0);
      var w := NotReady(cs, 8 * s.master.round, s.master.i, |s.process|, |s.processEnd|);
      assert LaneOk(c, w, s.lanes[w]) && cs[w] == Clock(s.lanes[w]);
      LaneNotReady(c, s, w);
    }
  }

  lemma LaneNotReady(c: Config, s: State, w: nat)
    requires w < |s.lanes| && LaneOk(c, w, s.lanes[w]) && MasterOk(c, s) && s.master.pc.GatherReady?
    requires var x, b := Clock(s.lanes[w]), 8 * s.master.round;
             b - 1 <= x < b + 2 && (w == 0 ==> x == b + 1) && (x == b - 1 ==> |s.processEnd| > 0)
    ensures !Stuck(c, s)
  {
    if Stuck(c, s) { StuckMeans(c, s, w); }
  }

  lemma NotStuckWaiting(c: Config, s: State)
    requires Shape(c, s) && SemInv(s) && s.master.pc.WaitChild?
    ensures !Stuck(c, s)
  {
    if Stuck(c, s) {
      var cs, b := Clocks(s.lanes), 8 * s.master.round;
      CountsOf(s);
      StuckMeans(c, s, 0);
      assert cs[0] == Clock(s.lanes[0]);
      FirstReleased(cs, b, s.master.i, |s.father|, |s.process|, |s.processEnd|);
    }
  }

  // After N releases a token is there for the child of thread 0, if it still waits.
  lemma FirstReleased(cs: seq<int>, b: int, i: nat, f: int, p: int, e: int)
    requires |cs| > 0 && Counts(cs, Releasing, b, i, f, p, e) && i == |cs|
    ensures b + 2 <= cs[0] <= b + 5 && (cs[0] == b + 2 ==> p > 0)
  {
    CountExtremes(cs, b + 3);
  }

  // While thread 0 collects and finds no token, some other thread has not finished yet.
  lemma NotFinished(cs: seq<int>, b: int, i: nat, p: int, e: int) returns (w: nat)
    requires |cs| > 0 && Counts(cs, Collecting, b, i, 0, p, e)
    ensures 0 < w < |cs| && b + 2 <= cs[w] < b + 7 && (cs[w] == b + 2 ==> p > 0)
  {
    CountExtremes(cs, b + 7);
    w :| w < |cs| && cs[w] < b + 7;
    CountExtremes(cs, b + 3);
  }

  lemma NotStuckCollecting(c: Config, s: State)
    requires Shape(c, s) && SemInv(s) && s.master.pc.GatherFinished?
    ensures !Stuck(c, s)
  {
    if Stuck(c, s) {
      var cs := Clocks(s.lanes);
      CountsOf(s);
      StuckMeans(c, s, 0);
      var w := NotFinished(cs, 8 * s.master.round, s.master.i, |s.process|, |s.processEnd|);
      assert cs[w] == Clock(s.lanes[w]);
      LaneNotFinished(c, s, w);
    }
  }

  lemma LaneNotFinished(c: Config, s: State, w: nat)
    requires 0 < w < |s.lanes|
    requires var x, b := Clock(s.lanes[w]), 8 * s.master.round;
             b + 2 <= x < b + 7 && (x == b + 2 ==> |s.process| > 0)
    ensures !Stuck(c, s)
  {
    if Stuck(c, s) { StuckMeans(c, s, w); }
  }

  lemma StuckAtTheEnd(c: Config, s: State, w: nat)
    requires Shape(c, s) && SemInv(s) && Stuck(c, s) && w < |s.lanes|
    requires s.master.pc.ProbesStart?
    ensures s.master.round == c.Rounds() && s.lanes[w] == Lane(c.Rounds(), NotForked)
  {
    var cs, b := Clocks(s.lanes), 8 * s.master.round;
    CountsOf(s);
    StuckMeans(c, s, w);
    assert LaneOk(c, w, s.lanes[w]) && cs[w] == Clock(s.lanes[w]);
    CountExtremes(cs, b);
  }

  lemma FinalSems(c: Config, s: State)
    requires Shape(c, s) && SemInv(s) && Final(c, s)
    ensures s.father == s.process == s.processEnd == multiset{}
  {
    var cs, b := Clocks(s.lanes), 8 * s.master.round;
    assert forall w :: 0 <= w < |cs| ==> cs[w] == b;
    CountsOf(s);
    CountExtremes(cs, b);
    CountExtremes(cs, b + 2);
  }

  lemma FinalIsStuck(c: Config, s: State)
    requires Shape(c, s) && SemInv(s) && Final(c, s)
    ensures Stuck(c, s)
  {
    FinalSems(c, s);
  }

  /** Provided every child terminates (ending a run is always a possible step), a reachable
      state is stuck exactly when all rounds are done, and then all semaphores are 0. */
  lemma StuckOnlyWhenDone(c: Config, s: State)
    requires 1 <= c.nbProcess && Reachable(c, s)
    ensures Stuck(c, s) <==> Final(c, s)
    ensures Final(c, s) ==> s.father == s.process == s.processEnd == multiset{}
  {
    ReachableInv(c, s);
    if Final(c, s) {
      FinalSems(c, s);
      FinalIsStuck(c, s);
    }
    if Stuck(c, s) {
      StuckMeans(c, s, 0);
      match s.master.pc {
        case GatherReady => NotStuckGathering(c, s);
        case WaitChild => NotStuckWaiting(c, s);
        case GatherFinished => NotStuckCollecting(c, s);
        case ProbesStart =>
          forall w: nat | w < |s.lanes| ensures s.lanes[w] == Lane(c.Rounds(), NotForked) {
            StuckAtTheEnd(c, s, w);
          }
        case _ =>
      }
    }
  }
}
