// The semaphore invariant of the program mode.
//
// A lane's clock counts its steps, eight in each round, and thread 0 goes through five phases.
// In every phase the clocks of all lanes lie in a narrow band around the round of thread 0,
// each semaphore holds exactly as many tokens as clocks stand between a post and its wait, and
// every token is meant for its taker. The file ends with the shape of the lanes: loop counters
// and rounds within their bounds.

module ProgramSemaphores {
  import opened Counting
  import opened ProgramRunner

  function Clock(x: Lane): int {
    8 * x.round +
    (match x.pc
     case NotForked => 0
     case PostReady => 1
     case WaitGo => 2
     case Exec => 3
     case Running => 4
     case Zombie => 5
     case PostFinished => 6
     case WaitLeave => 7)
  }

  function Clocks(ls: seq<Lane>): seq<int> {
    seq(|ls|, w requires 0 <= w < |ls| => Clock(ls[w]))
  }

  datatype Phase = Opening | Gathering | Releasing | Collecting | Leaving

  function PhaseOf(pc: MasterPc): Phase {
    match pc
    case ProbesStart => Opening
    case Fork => Opening
    case GatherReady => Gathering
    case PostGo => Releasing
    case WaitChild => Releasing
    case GatherFinished => Collecting
    case PostLeave => Leaving
    case ProbesStop => Leaving
  }

  // Clocks of the lanes from first on.
  ghost predicate Between(cs: seq<int>, first: nat, lo: int, hi: int) {
    forall w :: first <= w < |cs| ==> lo <= cs[w] <= hi
  }

  // Exact token counts: f, p, e are the values of the father, process and processEnd
  // semaphores; b is the clock at which the master's round begins.
  ghost predicate Counts(cs: seq<int>, ph: Phase, b: int, i: nat, f: int, p: int, e: int)
    requires |cs| > 0
  {
    match ph
    case Opening =>
      && Between(cs, 0, b - 1, b + 2) && cs[0] == b && i == 0
      && f == CountAtLeast(cs, b + 2) && p == 0 && e + CountAtLeast(cs, b) == |cs|
    case Gathering =>
      && Between(cs, 0, b - 1, b + 2) && cs[0] >= b + 1 && i < |cs|
      && f + i == CountAtLeast(cs, b + 2) && p == 0 && e + CountAtLeast(cs, b) == |cs|
    case Releasing =>
      && Between(cs, 0, b + 2, b + 7) && cs[0] <= b + 5 && i <= |cs|
      && f == CountAtLeast(cs, b + 7) && p + CountAtLeast(cs, b + 3) == i && e == 0
    case Collecting =>
      && Between(cs, 1, b + 2, b + 7) && cs[0] == b + 8 && i + 1 < |cs|
      && f + i + 1 == CountAtLeast(cs, b + 7) && p + CountAtLeast(cs, b + 3) == |cs| && e == 0
    case Leaving =>
      && Between(cs, 0, b + 7, b + 10) && cs[0] == b + 8 && i < |cs|
      && f == CountAtLeast(cs, b + 10) && p == 0 && e + CountAtLeast(cs, b + 8) == i + 1
  }

  ghost predicate AllFor(m: multiset<nat>, k: int) {
    forall t :: t in m ==> t == k
  }

  ghost predicate Tokens(ph: Phase, r: nat, f: multiset<nat>, p: multiset<nat>, e: multiset<nat>) {
    match ph
    case Opening => AllFor(f, 2 * r) && AllFor(e, r - 1)
    case Gathering => AllFor(f, 2 * r) && AllFor(e, r - 1)
    case Releasing => AllFor(f, 2 * r + 1) && AllFor(p, r)
    case Collecting => AllFor(f, 2 * r + 1) && AllFor(p, r)
    case Leaving => AllFor(f, 2 * r + 2) && AllFor(e, r)
  }

  ghost predicate Sems(cs: seq<int>, ph: Phase, r: nat, i: nat,
                       f: multiset<nat>, p: multiset<nat>, e: multiset<nat>)
    requires |cs| > 0
  {
    Counts(cs, ph, 8 * r, i, |f|, |p|, |e|) && Tokens(ph, r, f, p, e)
  }

  ghost predicate SemInv(s: State)
    requires |s.lanes| > 0
  {
    Sems(Clocks(s.lanes), PhaseOf(s.master.pc), s.master.round, s.master.i, s.father, s.process, s.processEnd)
  }

  // ---------- the semaphores, step by step ----------

  // The two posts on the father semaphore, from clock 8 * q + 1 and from 8 * q + 6.
  lemma ReadySems(cs: seq<int>, w: nat, q: nat, ph: Phase, r: nat, i: nat,
                  f: multiset<nat>, p: multiset<nat>, e: multiset<nat>)
    requires w < |cs| && Sems(cs, ph, r, i, f, p, e) && cs[w] == 8 * q + 1
    ensures Sems(cs[w := cs[w] + 1], ph, r, i, f + multiset{2 * q}, p, e)
  {
    forall t { CountUpdate(cs, w, cs[w] + 1, t); }
  }

  lemma FinishSems(cs: seq<int>, w: nat, q: nat, ph: Phase, r: nat, i: nat,
                   f: multiset<nat>, p: multiset<nat>, e: multiset<nat>)
    requires w < |cs| && Sems(cs, ph, r, i, f, p, e) && cs[w] == 8 * q + 6
    ensures q == r && (ph.Releasing? || ph.Collecting?)
    ensures Sems(cs[w := cs[w] + 1], ph, r, i, f + multiset{2 * q + 1}, p, e)
  {
    forall t { CountUpdate(cs, w, cs[w] + 1, t); }
  }

  lemma GoSems(cs: seq<int>, w: nat, q: nat, tok: nat, ph: Phase, r: nat, i: nat,
               f: multiset<nat>, p: multiset<nat>, e: multiset<nat>)
    requires w < |cs| && Sems(cs, ph, r, i, f, p, e) && cs[w] == 8 * q + 2 && tok in p
    ensures tok == q
    ensures Sems(cs[w := cs[w] + 1], ph, r, i, f, p - multiset{tok}, e)
  {
    forall t { CountUpdate(cs, w, cs[w] + 1, t); }
    assert |p| == |p - multiset{tok}| + 1;
  }

  lemma LeaveSems(cs: seq<int>, w: nat, q: nat, tok: nat, ph: Phase, r: nat, i: nat,
                  f: multiset<nat>, p: multiset<nat>, e: multiset<nat>)
    requires w < |cs| && Sems(cs, ph, r, i, f, p, e) && cs[w] == 8 * q + 7 && tok in e
    ensures tok == q
    ensures Sems(cs[w := cs[w] + 1], ph, r, i, f, p, e - multiset{tok})
  {
    forall t { CountUpdate(cs, w, cs[w] + 1, t); }
    assert |e| == |e - multiset{tok}| + 1;
  }

  // A step from clock 8 * q + d that touches no semaphore.
  predicate QuietAt(w: nat, d: int) {
    d == 3 || d == 4 || (w != 0 && (d == 0 || d == 5))
  }

  lemma QuietSems(cs: seq<int>, w: nat, q: nat, d: int, ph: Phase, r: nat, i: nat,
                  f: multiset<nat>, p: multiset<nat>, e: multiset<nat>)
    requires w < |cs| && Sems(cs, ph, r, i, f, p, e)
    requires cs[w] == 8 * q + d && QuietAt(w, d)
    ensures Sems(cs[w := cs[w] + 1], ph, r, i, f, p, e)
  {
    QuietCount(cs, w, q, d, r, 0);
    QuietCount(cs, w, q, d, r, 2);
    QuietCount(cs, w, q, d, r, 3);
    QuietCount(cs, w, q, d, r, 7);
    QuietCount(cs, w, q, d, r, 8);
    QuietCount(cs, w, q, d, r, 10);
    QuietBounds(cs, w, q, d, ph, r, i, |f|, |p|, |e|);
  }

  lemma QuietCount(cs: seq<int>, w: nat, q: nat, d: int, r: nat, x: nat)
    requires w < |cs| && cs[w] == 8 * q + d && QuietAt(w, d)
    requires x == 0 || x == 2 || x == 3 || x == 7 || x == 8 || x == 10
    ensures CountAtLeast(cs[w := cs[w] + 1], 8 * r + x) == CountAtLeast(cs, 8 * r + x)
  {
    CountUpdate(cs, w, cs[w] + 1, 8 * r + x);
  }

  lemma QuietBounds(cs: seq<int>, w: nat, q: nat, d: int, ph: Phase, r: nat, i: nat, f: int, p: int, e: int)
    requires w < |cs| && Counts(cs, ph, 8 * r, i, f, p, e)
    requires cs[w] == 8 * q + d && QuietAt(w, d)
    ensures var cs' := cs[w := cs[w] + 1];
            match ph
            case Opening => Between(cs', 0, 8 * r - 1, 8 * r + 2) && cs'[0] == 8 * r
            case Gathering => Between(cs', 0, 8 * r - 1, 8 * r + 2) && cs'[0] >= 8 * r + 1
            case Releasing => Between(cs', 0, 8 * r + 2, 8 * r + 7) && cs'[0] <= 8 * r + 5
            case Collecting => Between(cs', 1, 8 * r + 2, 8 * r + 7) && cs'[0] == 8 * r + 8
            case Leaving => Between(cs', 0, 8 * r + 7, 8 * r + 10) && cs'[0] == 8 * r + 8
  {
  }

  lemma ForkSems(cs: seq<int>, r: nat, f: multiset<nat>, p: multiset<nat>, e: multiset<nat>)
    requires |cs| > 0 && Sems(cs, Opening, r, 0, f, p, e)
    ensures Sems(cs[0 := 8 * r + 1], Gathering, r, 0, f, p, e)
  {
    forall t { CountUpdate(cs, 0, 8 * r + 1, t); }
  }

  lemma GatherSems(cs: seq<int>, tok: nat, r: nat, i: nat, f: multiset<nat>, p: multiset<nat>, e: multiset<nat>)
    requires |cs| > 0 && Sems(cs, Gathering, r, i, f, p, e) && tok in f
    ensures tok == 2 * r
    ensures if i + 1 < |cs| then Sems(cs, Gathering, r, i + 1, f - multiset{tok}, p, e)
            else Sems(cs, Releasing, r, 0, f - multiset{tok}, p, e)
  {
    assert |f| == |f - multiset{tok}| + 1;
    forall t { CountExtremes(cs, t); }
    CountMonotone(cs, 8 * r, 8 * r + 2);
  }

  lemma ReleaseSems(cs: seq<int>, r: nat, i: nat, f: multiset<nat>, p: multiset<nat>, e: multiset<nat>)
    requires |cs| > 0 && Sems(cs, Releasing, r, i, f, p, e) && i < |cs|
    ensures Sems(cs, Releasing, r, i + 1, f, p + multiset{r}, e)
  {
  }

  lemma ReapSems(cs: seq<int>, r: nat, f: multiset<nat>, p: multiset<nat>, e: multiset<nat>)
    requires |cs| > 0 && Sems(cs, Releasing, r, |cs|, f, p, e) && cs[0] == 8 * r + 5
    ensures Sems(cs[0 := 8 * r + 8], if |cs| > 1 then Collecting else Leaving, r, 0, f, p, e)
  {
    forall t { CountUpdate(cs, 0, 8 * r + 8, t); }
    if |cs| == 1 {
      forall t { CountExtremes(cs[0 := 8 * r + 8], t); }
    }
  }

  lemma CollectSems(cs: seq<int>, tok: nat, r: nat, i: nat, f: multiset<nat>, p: multiset<nat>, e: multiset<nat>)
    requires |cs| > 0 && Sems(cs, Collecting, r, i, f, p, e) && tok in f
    ensures tok == 2 * r + 1
    ensures if i + 2 < |cs| then Sems(cs, Collecting, r, i + 1, f - multiset{tok}, p, e)
            else Sems(cs, Leaving, r, 0, f - multiset{tok}, p, e)
  {
    assert |f| == |f - multiset{tok}| + 1;
    forall t { CountExtremes(cs, t); }
    if i + 2 >= |cs| {
      assert Reached(cs, 8 * r + 8) == {0};
    }
  }

  lemma LeavePostSems(cs: seq<int>, r: nat, i: nat, f: multiset<nat>, p: multiset<nat>, e: multiset<nat>)
    requires |cs| > 0 && Sems(cs, Leaving, r, i, f, p, e) && i + 1 < |cs|
    ensures Sems(cs, Leaving, r, i + 1, f, p, e + multiset{r})
  {
  }

  lemma CloseSems(cs: seq<int>, r: nat, f: multiset<nat>, p: multiset<nat>, e: multiset<nat>)
    requires |cs| > 0 && Sems(cs, Leaving, r, |cs| - 1, f, p, e)
    ensures Sems(cs, Opening, r + 1, 0, f, p, e)
  {
  }

  // ---------- lifting to states ----------

  lemma ClocksUpdate(ls: seq<Lane>, w: nat, x: Lane)
    requires w < |ls|
    ensures Clocks(ls[w := x]) == Clocks(ls)[w := Clock(x)]
  {
  }

  lemma SemsOf(s: State, cs: seq<int>, ph: Phase, r: nat, i: nat, f: multiset<nat>, p: multiset<nat>, e: multiset<nat>)
    requires |s.lanes| > 0 && Clocks(s.lanes) == cs && PhaseOf(s.master.pc) == ph
    requires s.master.round == r && s.master.i == i && s.father == f && s.process == p && s.processEnd == e
    ensures SemInv(s) == Sems(cs, ph, r, i, f, p, e)
  {
  }

  // The clocks after a step of lane w, which moves its own by one.
  lemma LaneClocks(s: State, w: nat, tok: nat)
    requires w < |s.lanes| && Clock(NextLane(s.lanes[w])) == Clock(s.lanes[w]) + 1
    ensures Clocks(s.lanes)[w] == Clock(s.lanes[w])
    ensures Clocks(LaneApply(s, w, tok).lanes) == Clocks(s.lanes)[w := Clocks(s.lanes)[w] + 1]
  {
    ClocksUpdate(s.lanes, w, NextLane(s.lanes[w]));
  }

  lemma ReadyApplied(s: State, w: nat, tok: nat)
    requires w < |s.lanes| && s.lanes[w].pc.PostReady?
    ensures LaneApply(s, w, tok) == s.(father := s.father + multiset{2 * s.lanes[w].round},
                                       lanes := s.lanes[w := s.lanes[w].(pc := WaitGo)])
  {
    assert s.hist + [] == s.hist;
  }

  lemma ReadyKeepsSems(c: Config, s: State, w: nat, tok: nat)
    requires LaneEnabled(c, s, w, tok) && SemInv(s) && s.lanes[w].pc.PostReady?
    ensures SemInv(LaneApply(s, w, tok))
  {
    var x, m, cs := s.lanes[w], s.master, Clocks(s.lanes);
    LaneClocks(s, w, tok);
    ReadySems(cs, w, x.round, PhaseOf(m.pc), m.round, m.i, s.father, s.process, s.processEnd);
    ReadyApplied(s, w, tok);
    var s' := LaneApply(s, w, tok);
    SemsOf(s', cs[w := cs[w] + 1], PhaseOf(m.pc), m.round, m.i, s'.father, s.process, s.processEnd);
  }

  lemma FinishApplied(s: State, w: nat, tok: nat)
    requires w < |s.lanes| && s.lanes[w].pc.PostFinished?
    ensures LaneApply(s, w, tok) == s.(father := s.father + multiset{2 * s.lanes[w].round + 1},
                                       lanes := s.lanes[w := s.lanes[w].(pc := WaitLeave)])
  {
    assert s.hist + [] == s.hist;
  }

  lemma FinishKeepsSems(c: Config, s: State, w: nat, tok: nat)
    requires LaneEnabled(c, s, w, tok) && SemInv(s) && s.lanes[w].pc.PostFinished?
    ensures SemInv(LaneApply(s, w, tok))
  {
    var x, m, cs := s.lanes[w], s.master, Clocks(s.lanes);
    LaneClocks(s, w, tok);
    FinishSems(cs, w, x.round, PhaseOf(m.pc), m.round, m.i, s.father, s.process, s.processEnd);
    FinishApplied(s, w, tok);
    var s' := LaneApply(s, w, tok);
    SemsOf(s', cs[w := cs[w] + 1], PhaseOf(m.pc), m.round, m.i, s'.father, s.process, s.processEnd);
  }

  lemma GoKeepsSems(c: Config, s: State, w: nat, tok: nat)
    requires LaneEnabled(c, s, w, tok) && SemInv(s) && s.lanes[w].pc.WaitGo?
    ensures tok == s.lanes[w].round && SemInv(LaneApply(s, w, tok))
  {
    var x, m, cs := s.lanes[w], s.master, Clocks(s.lanes);
    LaneClocks(s, w, tok);
    GoSems(cs, w, x.round, tok, PhaseOf(m.pc), m.round, m.i, s.father, s.process, s.processEnd);
    SemsOf(LaneApply(s, w, tok), cs[w := cs[w] + 1], PhaseOf(m.pc), m.round, m.i,
           s.father, s.process - multiset{tok}, s.processEnd);
  }

  lemma LeaveKeepsSems(c: Config, s: State, w: nat, tok: nat)
    requires LaneEnabled(c, s, w, tok) && SemInv(s) && s.lanes[w].pc.WaitLeave?
    ensures tok == s.lanes[w].round && SemInv(LaneApply(s, w, tok))
  {
    var x, m, cs := s.lanes[w], s.master, Clocks(s.lanes);
    LaneClocks(s, w, tok);
    LeaveSems(cs, w, x.round, tok, PhaseOf(m.pc), m.round, m.i, s.father, s.process, s.processEnd);
    SemsOf(LaneApply(s, w, tok), cs[w := cs[w] + 1], PhaseOf(m.pc), m.round, m.i,
           s.father, s.process, s.processEnd - multiset{tok});
  }

  predicate QuietPc(pc: LanePc) {
    pc.NotForked? || pc.Exec? || pc.Running? || pc.Zombie?
  }

  lemma QuietKeepsSems(c: Config, s: State, w: nat, tok: nat)
    requires LaneEnabled(c, s, w, tok) && SemInv(s) && QuietPc(s.lanes[w].pc)
    ensures SemInv(LaneApply(s, w, tok))
  {
    var x, m, cs := s.lanes[w], s.master, Clocks(s.lanes);
    var d := Clock(x) - 8 * x.round;
    LaneClocks(s, w, tok);
    assert QuietAt(w, d);
    QuietSems(cs, w, x.round, d, PhaseOf(m.pc), m.round, m.i, s.father, s.process, s.processEnd);
    SemsOf(LaneApply(s, w, tok), cs[w := cs[w] + 1], PhaseOf(m.pc), m.round, m.i, s.father, s.process, s.processEnd);
  }

  lemma LaneKeepsSems(c: Config, s: State, w: nat, tok: nat)
    requires LaneEnabled(c, s, w, tok) && SemInv(s)
    ensures s.lanes[w].pc.WaitGo? || s.lanes[w].pc.WaitLeave? ==> tok == s.lanes[w].round
    ensures SemInv(LaneApply(s, w, tok))
  {
    match s.lanes[w].pc {
      case PostReady => ReadyKeepsSems(c, s, w, tok);
      case PostFinished => FinishKeepsSems(c, s, w, tok);
      case WaitGo => GoKeepsSems(c, s, w, tok);
      case WaitLeave => LeaveKeepsSems(c, s, w, tok);
      case _ => QuietKeepsSems(c, s, w, tok);
    }
  }

  // The same for the master.

  lemma GatherKeepsSems(s: State, tok: nat)
    requires |s.lanes| > 0 && SemInv(s) && tok in s.father && s.master.pc.GatherReady?
    ensures tok == 2 * s.master.round && SemInv(MasterApply(s, tok))
  {
    GatherSems(Clocks(s.lanes), tok, s.master.round, s.master.i, s.father, s.process, s.processEnd);
  }

  lemma ReleaseKeepsSems(s: State, tok: nat)
    requires |s.lanes| > 0 && SemInv(s) && s.master.pc.PostGo? && s.master.i < |s.lanes|
    ensures SemInv(MasterApply(s, tok))
  {
    ReleaseSems(Clocks(s.lanes), s.master.round, s.master.i, s.father, s.process, s.processEnd);
  }

  lemma ReapKeepsSems(s: State, tok: nat)
    requires |s.lanes| > 0 && SemInv(s) && s.master.pc.WaitChild? && s.master.i == |s.lanes|
    requires s.lanes[0].pc.Zombie?
    ensures Clock(s.lanes[0]) == 8 * s.master.round + 5 && SemInv(MasterApply(s, tok))
  {
    assert Clocks(s.lanes)[0] == Clock(s.lanes[0]) == 8 * s.lanes[0].round + 5;
    var cs, r, n := Clocks(s.lanes), s.master.round, |s.lanes|;
    ReapSems(cs, r, s.father, s.process, s.processEnd);
    ClocksUpdate(s.lanes, 0, Lane(s.lanes[0].round + 1, NotForked));
    SemsOf(MasterApply(s, tok), cs[0 := 8 * r + 8], if n > 1 then Collecting else Leaving, r, 0,
           s.father, s.process, s.processEnd);
  }

  lemma CollectKeepsSems(s: State, tok: nat)
    requires |s.lanes| > 0 && SemInv(s) && tok in s.father && s.master.pc.GatherFinished?
    ensures tok == 2 * s.master.round + 1 && SemInv(MasterApply(s, tok))
  {
    CollectSems(Clocks(s.lanes), tok, s.master.round, s.master.i, s.father, s.process, s.processEnd);
  }

  lemma LeavePostKeepsSems(s: State, tok: nat)
    requires |s.lanes| > 0 && SemInv(s) && s.master.pc.PostLeave? && s.master.i + 1 < |s.lanes|
    ensures SemInv(MasterApply(s, tok))
  {
    LeavePostSems(Clocks(s.lanes), s.master.round, s.master.i, s.father, s.process, s.processEnd);
  }

  lemma StartKeepsSems(s: State, tok: nat)
    requires |s.lanes| > 0 && SemInv(s) && s.master.pc.ProbesStart?
    ensures SemInv(MasterApply(s, tok))
  {
    var m := s.master;
    SemsOf(MasterApply(s, tok), Clocks(s.lanes), Opening, m.round, m.i, s.father, s.process, s.processEnd);
  }

  lemma StopKeepsSems(s: State, tok: nat)
    requires |s.lanes| > 0 && SemInv(s) && s.master.pc.ProbesStop? && s.master.i + 1 == |s.lanes|
    ensures SemInv(MasterApply(s, tok))
  {
    var r := s.master.round;
    CloseSems(Clocks(s.lanes), r, s.father, s.process, s.processEnd);
    SemsOf(MasterApply(s, tok), Clocks(s.lanes), Opening, r + 1, 0, s.father, s.process, s.processEnd);
  }

  // The master's loop counter fits its place.
  predicate MasterOk(c: Config, s: State) {
    && s.master.round <= c.Rounds()
    && (s.master.round == c.Rounds() ==> s.master.pc.ProbesStart?)
    && (match s.master.pc
        case ProbesStart => s.master.i == 0
        case Fork => s.master.i == 0
        case GatherReady => s.master.i < |s.lanes|
        case PostGo => s.master.i < |s.lanes|
        case WaitChild => s.master.i == |s.lanes|
        case GatherFinished => s.master.i + 1 < |s.lanes|
        case PostLeave => s.master.i + 1 < |s.lanes|
        case ProbesStop => s.master.i + 1 == |s.lanes|)
  }

  lemma LaneZeroAtFork(s: State)
    requires |s.lanes| > 0 && SemInv(s) && s.master.pc.Fork?
    ensures s.lanes[0] == Lane(s.master.round, NotForked)
  {
    assert Clocks(s.lanes)[0] == Clock(s.lanes[0]);
  }

  lemma ForkKeepsSems(s: State, tok: nat)
    requires |s.lanes| > 0 && SemInv(s) && s.master.pc.Fork? && s.master.i == 0
    ensures SemInv(MasterApply(s, tok))
  {
    var x := s.lanes[0].(pc := PostReady);
    LaneZeroAtFork(s);
    ForkSems(Clocks(s.lanes), s.master.round, s.father, s.process, s.processEnd);
    ClocksUpdate(s.lanes, 0, x);
    assert Clocks(s.lanes[0 := x]) == Clocks(s.lanes)[0 := 8 * s.master.round + 1];
  }

  lemma MasterKeepsSems(c: Config, s: State, tok: nat)
    requires |s.lanes| > 0 && MasterEnabled(c, s, tok) && SemInv(s) && MasterOk(c, s)
    ensures s.master.pc.GatherReady? ==> tok == 2 * s.master.round
    ensures s.master.pc.GatherFinished? ==> tok == 2 * s.master.round + 1
    ensures SemInv(MasterApply(s, tok))
  {
    match s.master.pc {
      case Fork => ForkKeepsSems(s, tok);
      case GatherReady => GatherKeepsSems(s, tok);
      case PostGo => ReleaseKeepsSems(s, tok);
      case WaitChild => ReapKeepsSems(s, tok);
      case GatherFinished => CollectKeepsSems(s, tok);
      case PostLeave => LeavePostKeepsSems(s, tok);
      case ProbesStart => StartKeepsSems(s, tok);
      case ProbesStop => StopKeepsSems(s, tok);
    }
  }

  // ---------- shape ----------

  predicate LaneOk(c: Config, w: nat, x: Lane) {
    && x.round <= c.Rounds()
    && (x.round == c.Rounds() ==> x.pc.NotForked?)
    && (w == 0 ==> !x.pc.PostFinished? && !x.pc.WaitLeave?)
  }

  predicate Shape(c: Config, s: State) {
    && 1 <= c.nbProcess == |s.lanes|
    && MasterOk(c, s)
    && forall w :: 0 <= w < |s.lanes| ==> LaneOk(c, w, s.lanes[w])
  }

  lemma LaneKeepsShape(c: Config, s: State, w: nat, tok: nat)
    requires Shape(c, s) && LaneEnabled(c, s, w, tok)
    ensures Shape(c, LaneApply(s, w, tok))
  {
    assert LaneOk(c, w, s.lanes[w]);
    assert LaneOk(c, w, NextLane(s.lanes[w]));
  }

  lemma NextMasterOk(c: Config, s: State, tok: nat)
    requires MasterOk(c, s) && MasterEnabled(c, s, tok) && |s.lanes| > 0
    ensures MasterOk(c, MasterApply(s, tok))
  {
  }

  lemma MasterKeepsShape(c: Config, s: State, tok: nat)
    requires Shape(c, s) && SemInv(s) && MasterEnabled(c, s, tok)
    ensures Shape(c, MasterApply(s, tok))
  {
    NextMasterOk(c, s, tok);
    assert LaneOk(c, 0, s.lanes[0]);
    if s.master.pc.Fork? { LaneZeroAtFork(s); }
    assert LaneOk(c, 0, MasterApply(s, tok).lanes[0]);
  }
}
