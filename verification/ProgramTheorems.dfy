// Safety of the program mode over every run.

module ProgramTheorems {
  import opened Counting
  import opened ProgramRunner
  import opened ProgramSemaphores
  import opened ProgramHistory

  lemma {:induction false} InitHist(c: Config)
    ensures HistInv(Init(c))
  {
    var s := Init(c);
    forall w: nat | w < |s.lanes| ensures RunsSoFar(w, s.lanes[w]) == [] {
    }
  }

  lemma {:induction false} InitSems(cs: seq<int>)
    requires |cs| > 0 && forall w :: 0 <= w < |cs| ==> cs[w] == 0
    ensures Sems(cs, Opening, 0, 0, multiset{}, multiset{}, multiset{})
  {
    CountExtremes(cs, 0);
    CountExtremes(cs, 2);
  }

  lemma {:induction false} InitInv(c: Config)
    requires 1 <= c.nbProcess
    ensures Inv(c, Init(c))
  {
    InitHist(c);
    InitSems(Clocks(Init(c).lanes));
  }

  /** Every step of every thread and child keeps the invariant. */
  lemma StepKeepsInv(c: Config, s: State, st: Step)
    requires Inv(c, s) && Enabled(c, s, st)
    ensures Inv(c, Apply(c, s, st))
  {
    match st {
      case LaneStep(w, tok) =>
        LaneKeepsShape(c, s, w, tok);
        LaneKeepsHist(c, s, w, tok);
        LaneKeepsSems(c, s, w, tok);
      case MasterStep(tok) =>
        MasterKeepsShape(c, s, tok);
        MasterKeepsHist(c, s, tok);
        MasterKeepsSems(c, s, tok);
    }
  }

  lemma {:induction false} RunKeepsInv(c: Config, s: State, st: seq<Step>)
    requires Inv(c, s) && Run(c, s, st)
    ensures Inv(c, After(c, s, st))
    decreases |st|
  {
    if st != [] {
      StepKeepsInv(c, s, st[0]);
      RunKeepsInv(c, Apply(c, s, st[0]), st[1..]);
    }
  }

  lemma ReachableInv(c: Config, s: State)
    requires 1 <= c.nbProcess && Reachable(c, s)
    ensures Inv(c, s)
  {
    var st: seq<Step> :| Run(c, Init(c), st) && After(c, Init(c), st) == s;
    InitInv(c);
    RunKeepsInv(c, Init(c), st);
  }

  // ---------- safety ----------

  /** Whole runs. In the log of any interleaving, every beginning and end of a program run of
      round r comes after the probe start of round r and before the probe stop of round r. */
  lemma RunInsideWindow(c: Config, st: seq<Step>, j: nat, w: nat, r: nat)
    requires 1 <= c.nbProcess && Run(c, Init(c), st)
    requires var h := After(c, Init(c), st).hist;
             j < |h| && (h[j] == RunBegins(w, r) || h[j] == RunEnds(w, r))
    ensures var h := After(c, Init(c), st).hist;
            && (exists a :: 0 <= a < j && h[a] == Started(r))
            && (forall b :: 0 <= b < |h| && h[b] == Stopped(r) ==> j < b)
  {
    InitInv(c);
    RunKeepsInv(c, Init(c), st);
    RunInsideWindowFromInv(After(c, Init(c), st), j, w, r);
  }

  lemma RunInsideWindowFromInv(s: State, j: nat, w: nat, r: nat)
    requires HistInv(s) && j < |s.hist|
    requires s.hist[j] == RunBegins(w, r) || s.hist[j] == RunEnds(w, r)
    ensures exists a :: 0 <= a < j && s.hist[a] == Started(r)
    ensures forall b :: 0 <= b < |s.hist| && s.hist[b] == Stopped(r) ==> j < b
  {
    assert Fits(s, s.hist[j]);
    var a :| 0 <= a < |s.hist| && s.hist[a] == Started(r);
    RunInOrder(s.hist[j], w, r);
    NotBefore(s.hist, j, a);
    forall b | 0 <= b < |s.hist| && s.hist[b] == Stopped(r) ensures j < b {
      NotBefore(s.hist, b, j);
    }
  }

  lemma RunInOrder(e: Event, w: nat, r: nat)
    requires e == RunBegins(w, r) || e == RunEnds(w, r)
    ensures !Precedes(e, Started(r)) && !Precedes(Stopped(r), e)
  {
  }

  lemma NotBefore(hist: seq<Event>, x: nat, y: nat)
    requires Sorted(hist) && x < |hist| && y < |hist| && !Precedes(hist[x], hist[y])
    ensures y <= x
  {
  }

  /** Whole runs. Between the probe start and the probe stop of round r nothing but runs of
      round r begins or ends. */
  lemma WindowIsPure(c: Config, st: seq<Step>, a: nat, k: nat, b: nat, r: nat)
    requires 1 <= c.nbProcess && Run(c, Init(c), st)
    requires var h := After(c, Init(c), st).hist;
             a < k < b < |h| && h[a] == Started(r) && h[b] == Stopped(r)
    ensures var e := After(c, Init(c), st).hist[k];
            (e.RunBegins? || e.RunEnds?) && e.r == r
  {
    InitInv(c);
    RunKeepsInv(c, Init(c), st);
    WindowPureFromInv(After(c, Init(c), st), a, k, b, r);
  }

  lemma WindowPureFromInv(s: State, a: nat, k: nat, b: nat, r: nat)
    requires Sorted(s.hist) && a < k < b < |s.hist| && s.hist[a] == Started(r) && s.hist[b] == Stopped(r)
    ensures (s.hist[k].RunBegins? || s.hist[k].RunEnds?) && s.hist[k].r == r
  {
    assert Precedes(s.hist[a], s.hist[k]) && Precedes(s.hist[k], s.hist[b]);
    BetweenProbes(s.hist[k], r);
  }

  lemma BetweenProbes(e: Event, r: nat)
    requires Precedes(Started(r), e) && Precedes(e, Stopped(r))
    ensures (e.RunBegins? || e.RunEnds?) && e.r == r
  {
  }

  /** Whole runs. Each child runs its program exactly once per round, in order, and thread 0
      opens and closes exactly one probe window per round. */
  lemma ProjectionTheorem(c: Config, st: seq<Step>, w: nat)
    requires 1 <= c.nbProcess && w < c.nbProcess && Run(c, Init(c), st)
    ensures var s := After(c, Init(c), st);
            && |s.lanes| == c.nbProcess
            && Project(s.hist, w) == RunsSoFar(w, s.lanes[w])
            && Project(s.hist, -1) == ProbesSoFar(s.master)
            && (Final(c, s) ==> Project(s.hist, w) == RunLog(w, c.Rounds())
                                && Project(s.hist, -1) == ProbeLog(c.Rounds()))
  {
    InitInv(c);
    RunKeepsInv(c, Init(c), st);
  }

  /** The two meanings of the father semaphore never mix and no token is stolen: whatever
      token a semaphore hands out, thread 0's first gather takes "child ready" posts of its own
      round, its second gather takes "thread finished" posts of its own round, and a child or
      thread takes a token of its own round. */
  lemma NoStolenToken(c: Config, s: State, st: Step)
    requires 1 <= c.nbProcess && Reachable(c, s) && Enabled(c, s, st)
    ensures match st
            case LaneStep(w, tok) =>
              s.lanes[w].pc.WaitGo? || s.lanes[w].pc.WaitLeave? ==> tok == s.lanes[w].round
            case MasterStep(tok) =>
              && (s.master.pc.GatherReady? ==> tok == 2 * s.master.round)
              && (s.master.pc.GatherFinished? ==> tok == 2 * s.master.round + 1)
  {
    ReachableInv(c, s);
    match st {
      case LaneStep(w, tok) => LaneKeepsSems(c, s, w, tok);
      case MasterStep(tok) => MasterKeepsSems(c, s, tok);
    }
  }

  /** The gathers are exact: when the first gather of round r ends (the master is about to
      release), all N children of round r are ready, and no father, go or leave token is left;
      when the second ends, all N - 1 other threads have posted "finished" for round r and no
      father or go token is left. */
  lemma GathersAreExact(c: Config, s: State, w: nat)
    requires 1 <= c.nbProcess && Reachable(c, s) && w < |s.lanes|
    ensures s.master.pc.PostGo? && s.master.i == 0 ==>
              s.lanes[w] == Lane(s.master.round, WaitGo)
              && s.father == s.process == s.processEnd == multiset{}
    ensures s.master.pc.PostLeave? && s.master.i == 0 && w != 0 ==>
              (s.lanes[w] == Lane(s.master.round, WaitLeave)
               && s.father == s.process == s.processEnd == multiset{})
  {
    ReachableInv(c, s);
    GathersFromInv(c, s, w);
  }

  lemma ReleaseStart(cs: seq<int>, w: nat, r: nat, f: multiset<nat>, p: multiset<nat>, e: multiset<nat>)
    requires w < |cs| && Sems(cs, Releasing, r, 0, f, p, e)
    ensures cs[w] == 8 * r + 2 && f == p == e == multiset{}
  {
    CountExtremes(cs, 8 * r + 3);
    CountExtremes(cs, 8 * r + 7);
  }

  lemma LeaveStart(cs: seq<int>, w: nat, r: nat, f: multiset<nat>, p: multiset<nat>, e: multiset<nat>)
    requires 0 < w < |cs| && Sems(cs, Leaving, r, 0, f, p, e)
    ensures cs[w] == 8 * r + 7 && f == p == e == multiset{}
  {
    var d := Reached(cs, 8 * r + 8);
    assert 0 in d;
    SubsetSize({0}, d);
    assert d == {0} && w !in d;
    assert Reached(cs, 8 * r + 10) <= d;
    assert Reached(cs, 8 * r + 10) == {};
  }

  lemma GathersFromInv(c: Config, s: State, w: nat)
    requires Inv(c, s) && w < |s.lanes|
    ensures s.master.pc.PostGo? && s.master.i == 0 ==>
              s.lanes[w] == Lane(s.master.round, WaitGo)
              && s.father == s.process == s.processEnd == multiset{}
    ensures s.master.pc.PostLeave? && s.master.i == 0 && w != 0 ==>
              (s.lanes[w] == Lane(s.master.round, WaitLeave)
               && s.father == s.process == s.processEnd == multiset{})
  {
    var cs := Clocks(s.lanes);
    assert cs[w] == Clock(s.lanes[w]);
    if s.master.pc.PostGo? && s.master.i == 0 {
      ReleaseStart(cs, w, s.master.round, s.father, s.process, s.processEnd);
    } else if s.master.pc.PostLeave? && s.master.i == 0 && w != 0 {
      LeaveStart(cs, w, s.master.round, s.father, s.process, s.processEnd);
    }
  }
}
