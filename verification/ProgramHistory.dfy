// The history invariant of the program mode.
//
// Every event has its place in an intended order: in each round first the probe start, then
// all program runs, then the probe stop. The history is sorted in this order, each lane and
// thread 0 have made exactly the calls their program counters say, and no event is ahead of
// the thread it belongs to. What lets a run event be logged late enough and early enough are
// the bands in which ProgramSemaphores keeps the clocks.

module ProgramHistory {
  import opened ProgramRunner
  import opened ProgramSemaphores

  // Position of an event in the intended order: within a round, first the probe start, then
  // all program runs, then the probe stop.
  function Key(e: Event): nat {
    match e
    case Started(r) => 3 * r
    case RunBegins(_, r) => 3 * r + 1
    case RunEnds(_, r) => 3 * r + 1
    case Stopped(r) => 3 * r + 2
  }

  // The lane an event belongs to, or -1 for thread 0's probe calls.
  function Owner(e: Event): int {
    match e
    case RunBegins(w, _) => w
    case RunEnds(w, _) => w
    case _ => -1
  }

  // x may come before e: a probe call is alone at its position.
  predicate Precedes(x: Event, e: Event) {
    if Owner(x) == -1 then Key(x) < Key(e) else Key(x) <= Key(e)
  }

  predicate Sorted(hist: seq<Event>) {
    forall a, b :: 0 <= a < b < |hist| ==> Precedes(hist[a], hist[b])
  }

  function Project(hist: seq<Event>, o: int): seq<Event> {
    if hist == [] then []
    else
      var e := hist[|hist| - 1];
      Project(hist[..|hist| - 1], o) + (if Owner(e) == o then [e] else [])
  }

  // One run of child w per round, and one probe window per round.
  function RunLog(w: nat, rounds: nat): seq<Event> {
    if rounds == 0 then [] else RunLog(w, rounds - 1) + [RunBegins(w, rounds - 1), RunEnds(w, rounds - 1)]
  }

  function ProbeLog(rounds: nat): seq<Event> {
    if rounds == 0 then [] else ProbeLog(rounds - 1) + [Started(rounds - 1), Stopped(rounds - 1)]
  }

  function RunsSoFar(w: nat, x: Lane): seq<Event> {
    RunLog(w, x.round) +
    (match x.pc
     case Running => [RunBegins(w, x.round)]
     case Zombie => [RunBegins(w, x.round), RunEnds(w, x.round)]
     case PostFinished => [RunBegins(w, x.round), RunEnds(w, x.round)]
     case WaitLeave => [RunBegins(w, x.round), RunEnds(w, x.round)]
     case _ => [])
  }

  function ProbesSoFar(m: Master): seq<Event> {
    ProbeLog(m.round) + (if m.pc.ProbesStart? then [] else [Started(m.round)])
  }

  predicate Fits(s: State, e: Event) {
    match e
    case Started(r) => r < s.master.round || (r == s.master.round && !s.master.pc.ProbesStart?)
    case Stopped(r) => r < s.master.round
    case RunBegins(w, r) => w < |s.lanes| && 8 * r + 4 <= Clock(s.lanes[w]) && Started(r) in s.hist
    case RunEnds(w, r) => w < |s.lanes| && 8 * r + 4 <= Clock(s.lanes[w]) && Started(r) in s.hist
  }

  ghost predicate HistInv(s: State) {
    && Sorted(s.hist)
    && (forall e :: e in s.hist ==> Fits(s, e))
    && (!s.master.pc.ProbesStart? ==> Started(s.master.round) in s.hist)
    && (forall w :: 0 <= w < |s.lanes| ==> Project(s.hist, w) == RunsSoFar(w, s.lanes[w]))
    && Project(s.hist, -1) == ProbesSoFar(s.master)
  }

  ghost predicate Inv(c: Config, s: State) {
    Shape(c, s) && SemInv(s) && HistInv(s)
  }

  lemma {:induction false} ProjectSnoc(hist: seq<Event>, e: Event, o: int)
    ensures Project(hist + [e], o) == Project(hist, o) + (if Owner(e) == o then [e] else [])
  {
    assert (hist + [e])[..|hist|] == hist;
  }

  // A program runs only while thread 0 is between its release and its collection of the
  // same round, and then no lane is a round ahead.
  lemma RunningIsInWindow(s: State, w: nat, v: nat)
    requires w < |s.lanes| && v < |s.lanes| && SemInv(s)
    requires s.lanes[w].pc.Exec? || s.lanes[w].pc.Running?
    ensures s.master.round == s.lanes[w].round
    ensures s.master.pc.PostGo? || s.master.pc.WaitChild? || s.master.pc.GatherFinished?
    ensures 8 * s.master.round + 2 <= Clock(s.lanes[v]) <= 8 * s.master.round + 8
  {
    var cs := Clocks(s.lanes);
    assert cs[w] == Clock(s.lanes[w]) && cs[v] == Clock(s.lanes[v]) && cs[0] == Clock(s.lanes[0]);
  }

  lemma LanesAtProbes(s: State, v: nat)
    requires v < |s.lanes| && SemInv(s)
    requires s.master.pc.ProbesStart? || s.master.pc.ProbesStop?
    ensures Clock(s.lanes[v]) <= if s.master.pc.ProbesStart? then 8 * s.master.round + 2
                                 else 8 * s.master.round + 10
  {
    var cs := Clocks(s.lanes);
    assert cs[v] == Clock(s.lanes[v]);
  }

  lemma SortedSnoc(hist: seq<Event>, e: Event)
    requires Sorted(hist) && forall x :: x in hist ==> Precedes(x, e)
    ensures Sorted(hist + [e])
  {
    assert forall a :: 0 <= a < |hist| ==> hist[a] in hist;
  }

  lemma RunEventSorted(s: State, w: nat, e: Event)
    requires w < |s.lanes| && SemInv(s) && HistInv(s)
    requires LaneEvents(w, s.lanes[w]) == [e]
    ensures Sorted(s.hist + [e]) && Started(s.lanes[w].round) in s.hist
  {
    RunningIsInWindow(s, w, w);
    forall x | x in s.hist ensures Precedes(x, e) {
      assert Fits(s, x);
      if Owner(x) >= 0 { RunningIsInWindow(s, w, Owner(x)); }
    }
    SortedSnoc(s.hist, e);
  }

  lemma ProbeEventSorted(s: State, e: Event)
    requires |s.lanes| > 0 && SemInv(s) && HistInv(s)
    requires MasterEvents(s.master) == [e]
    ensures Sorted(s.hist + [e])
  {
    forall x | x in s.hist ensures Precedes(x, e) {
      assert Fits(s, x);
      if Owner(x) >= 0 { LanesAtProbes(s, Owner(x)); }
    }
    SortedSnoc(s.hist, e);
  }

  // Nothing is logged and nobody's log position changes.
  predicate SameLogs(s: State, s': State) {
    && |s'.lanes| == |s.lanes| && s'.hist == s.hist
    && s'.master.round == s.master.round && (s'.master.pc.ProbesStart? <==> s.master.pc.ProbesStart?)
    && forall w :: 0 <= w < |s.lanes| ==>
         RunsSoFar(w, s'.lanes[w]) == RunsSoFar(w, s.lanes[w]) && Clock(s'.lanes[w]) >= Clock(s.lanes[w])
  }

  lemma SameLogsKeepHist(s: State, s': State)
    requires HistInv(s) && SameLogs(s, s')
    ensures HistInv(s')
  {
    forall e | e in s'.hist ensures Fits(s', e) { assert Fits(s, e); }
  }

  // The log grows by e; what fitted before still fits.
  lemma OldEventsFit(s: State, s': State, e: Event)
    requires forall y :: y in s.hist ==> Fits(s, y)
    requires |s'.lanes| == |s.lanes| && s'.hist == s.hist + [e]
    requires forall w :: 0 <= w < |s.lanes| ==> Clock(s'.lanes[w]) >= Clock(s.lanes[w])
    requires s'.master.round > s.master.round
             || (s'.master.round == s.master.round && (s'.master.pc.ProbesStart? ==> s.master.pc.ProbesStart?))
    ensures forall y :: y in s.hist ==> Fits(s', y)
  {
    forall y | y in s.hist ensures Fits(s', y) { assert Fits(s, y); }
  }

  lemma RunEventKeepsHist(s: State, s': State, w: nat, e: Event)
    requires w < |s.lanes| && SemInv(s) && HistInv(s)
    requires LaneEvents(w, s.lanes[w]) == [e]
    requires s'.lanes == s.lanes[w := NextLane(s.lanes[w])] && s'.master == s.master && s'.hist == s.hist + [e]
    ensures HistInv(s')
  {
    RunEventSorted(s, w, e);
    OldEventsFit(s, s', e);
    assert Fits(s', e);
    forall v | -1 <= v < |s.lanes| { ProjectSnoc(s.hist, e, v); }
    LoudLog(w, s.lanes[w], e);
  }

  lemma LoudLog(w: nat, x: Lane, e: Event)
    requires LaneEvents(w, x) == [e]
    ensures Owner(e) == w && RunsSoFar(w, NextLane(x)) == RunsSoFar(w, x) + [e]
  {
  }

  lemma QuietLaneSame(s: State, s': State, w: nat)
    requires w < |s.lanes| && LaneEvents(w, s.lanes[w]) == []
    requires s'.lanes == s.lanes[w := NextLane(s.lanes[w])] && s'.master == s.master && s'.hist == s.hist
    ensures SameLogs(s, s')
  {
    QuietLog(w, s.lanes[w]);
  }

  lemma LaneKeepsHist(c: Config, s: State, w: nat, tok: nat)
    requires LaneEnabled(c, s, w, tok) && SemInv(s) && HistInv(s)
    ensures HistInv(LaneApply(s, w, tok))
  {
    if LaneEvents(w, s.lanes[w]) == [] {
      QuietLaneSame(s, LaneApply(s, w, tok), w);
      SameLogsKeepHist(s, LaneApply(s, w, tok));
    } else {
      RunEventKeepsHist(s, LaneApply(s, w, tok), w, LaneEvents(w, s.lanes[w])[0]);
    }
  }

  lemma QuietLog(w: nat, x: Lane)
    requires LaneEvents(w, x) == []
    ensures RunsSoFar(w, NextLane(x)) == RunsSoFar(w, x)
  {
  }

  lemma MasterLanesHist(s: State, tok: nat, w: nat)
    requires w < |s.lanes| && SemInv(s)
    requires s.master.pc.WaitChild? ==> s.lanes[0].pc.Zombie?
    ensures var x' := MasterApply(s, tok).lanes[w];
            RunsSoFar(w, x') == RunsSoFar(w, s.lanes[w]) && Clock(x') >= Clock(s.lanes[w])
  {
    if s.master.pc.Fork? {
      LaneZeroAtFork(s);
      ForkedLog(s.lanes[0]);
    }
    if s.master.pc.WaitChild? { ReapedLog(s.lanes[0]); }
  }

  lemma ForkedLog(x: Lane)
    requires x.pc.NotForked?
    ensures RunsSoFar(0, x.(pc := PostReady)) == RunsSoFar(0, x) && Clock(x.(pc := PostReady)) >= Clock(x)
  {
  }

  lemma ReapedLog(x: Lane)
    requires x.pc.Zombie?
    ensures RunsSoFar(0, Lane(x.round + 1, NotForked)) == RunsSoFar(0, x)
    ensures Clock(Lane(x.round + 1, NotForked)) >= Clock(x)
  {
  }

  lemma ProbeEventKeepsHist(s: State, s': State, e: Event)
    requires |s.lanes| > 0 && SemInv(s) && HistInv(s)
    requires MasterEvents(s.master) == [e]
    requires s'.lanes == s.lanes && s'.master == NextMaster(|s.lanes|, s.master) && s'.hist == s.hist + [e]
    ensures HistInv(s')
  {
    ProbeEventSorted(s, e);
    OldEventsFit(s, s', e);
    assert Fits(s', e);
    forall v | -1 <= v < |s.lanes| { ProjectSnoc(s.hist, e, v); }
    LoudProbe(|s.lanes|, s.master, e);
  }

  lemma LoudProbe(n: nat, m: Master, e: Event)
    requires MasterEvents(m) == [e]
    ensures Owner(e) == -1 && ProbesSoFar(NextMaster(n, m)) == ProbesSoFar(m) + [e]
  {
  }

  lemma QuietMasterSame(s: State, tok: nat)
    requires |s.lanes| > 0 && SemInv(s) && MasterEvents(s.master) == []
    requires s.master.pc.WaitChild? ==> s.lanes[0].pc.Zombie?
    ensures SameLogs(s, MasterApply(s, tok))
  {
    var s' := MasterApply(s, tok);
    forall w | 0 <= w < |s.lanes|
      ensures RunsSoFar(w, s'.lanes[w]) == RunsSoFar(w, s.lanes[w]) && Clock(s'.lanes[w]) >= Clock(s.lanes[w])
    {
      MasterLanesHist(s, tok, w);
    }
    QuietMaster(s, tok);
  }

  lemma QuietMaster(s: State, tok: nat)
    requires |s.lanes| > 0 && MasterEvents(s.master) == []
    ensures var s' := MasterApply(s, tok);
            && |s'.lanes| == |s.lanes| && s'.hist == s.hist
            && s'.master.round == s.master.round && (s'.master.pc.ProbesStart? <==> s.master.pc.ProbesStart?)
  {
  }

  lemma MasterKeepsHist(c: Config, s: State, tok: nat)
    requires |s.lanes| > 0 && MasterEnabled(c, s, tok) && SemInv(s) && HistInv(s)
    ensures HistInv(MasterApply(s, tok))
  {
    if MasterEvents(s.master) == [] {
      QuietMasterSame(s, tok);
      SameLogsKeepHist(s, MasterApply(s, tok));
    } else {
      ProbeEventKeepsHist(s, MasterApply(s, tok), MasterEvents(s.master)[0]);
    }
  }
}
