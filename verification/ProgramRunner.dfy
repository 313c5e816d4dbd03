// The program mode of src/ProgramRunner.cpp: N threads, one forked child per thread and
// round, three counting semaphores, 2 * nbMetaRepet rounds.
//
// A thread other than thread 0 sleeps in waitpid while its child lives, so thread and child
// w together are one sequential lane. Thread 0 works while its child lives, so it is modelled
// apart (the master) and lane 0 is only its child. Semaphores hold tokens as in KernelRunner:
// the value is the number of tokens; the tag on a token is for the proof only and says what
// the post meant. On the father semaphore the tag 2 * r is "a child of round r is ready" and
// 2 * r + 1 is "a thread has finished round r"; a go token and a leave token carry the round.

module ProgramRunner {
  datatype Config = Config(nbProcess: nat, nbMetaRepet: nat) {
    function Rounds(): nat { 2 * nbMetaRepet }
  }

  datatype LanePc =
    | NotForked | PostReady | WaitGo | Exec | Running | Zombie | PostFinished | WaitLeave

  datatype Lane = Lane(round: nat, pc: LanePc)

  datatype MasterPc =
    | ProbesStart | Fork | GatherReady | PostGo | WaitChild | GatherFinished | PostLeave | ProbesStop

  datatype Master = Master(round: nat, pc: MasterPc, i: nat)

  datatype Event =
    | Started(r: nat)
    | RunBegins(w: nat, r: nat)
    | RunEnds(w: nat, r: nat)
    | Stopped(r: nat)

  datatype State = State(
    father: multiset<nat>,
    process: multiset<nat>,
    processEnd: multiset<nat>,
    master: Master,
    lanes: seq<Lane>,
    hist: seq<Event>)

  datatype Step = LaneStep(w: nat, tok: nat) | MasterStep(tok: nat)

  // ---------- the threads and the children ----------

  function Init(c: Config): State {
    State(multiset{}, multiset{}, multiset{}, Master(0, ProbesStart, 0),
          seq(c.nbProcess, w requires 0 <= w < c.nbProcess => Lane(0, NotForked)), [])
  }

  // A child terminates whenever it likes; everything else but the two waits is never blocked.
  predicate LaneEnabled(c: Config, s: State, w: nat, tok: nat) {
    w < |s.lanes| &&
    (match s.lanes[w].pc
     case NotForked => w != 0 && s.lanes[w].round < c.Rounds()
     case WaitGo => tok in s.process
     case Zombie => w != 0
     case WaitLeave => tok in s.processEnd
     case _ => true)
  }

  predicate MasterEnabled(c: Config, s: State, tok: nat) {
    match s.master.pc
    case ProbesStart => s.master.round < c.Rounds()
    case GatherReady => tok in s.father
    case WaitChild => |s.lanes| > 0 && s.lanes[0].pc.Zombie?
    case GatherFinished => tok in s.father
    case Fork => |s.lanes| > 0
    case _ => true
  }

  predicate Enabled(c: Config, s: State, st: Step) {
    match st
    case LaneStep(w, tok) => LaneEnabled(c, s, w, tok)
    case MasterStep(tok) => MasterEnabled(c, s, tok)
  }

  // startTest in the child, then waitpid and the end of evaluation in the thread.
  function NextLane(x: Lane): Lane {
    match x.pc
    case NotForked => x.(pc := PostReady)
    case PostReady => x.(pc := WaitGo)
    case WaitGo => x.(pc := Exec)
    case Exec => x.(pc := Running)
    case Running => x.(pc := Zombie)
    case Zombie => x.(pc := PostFinished)
    case PostFinished => x.(pc := WaitLeave)
    case WaitLeave => Lane(x.round + 1, NotForked)
  }

  function LaneEvents(w: nat, x: Lane): seq<Event> {
    match x.pc
    case Exec => [RunBegins(w, x.round)]
    case Running => [RunEnds(w, x.round)]
    case _ => []
  }

  function LaneApply(s: State, w: nat, tok: nat): State
    requires w < |s.lanes|
  {
    var x := s.lanes[w];
    State(
      if x.pc.PostReady? then s.father + multiset{2 * x.round}
      else if x.pc.PostFinished? then s.father + multiset{2 * x.round + 1}
      else s.father,
      if x.pc.WaitGo? then s.process - multiset{tok} else s.process,
      if x.pc.WaitLeave? then s.processEnd - multiset{tok} else s.processEnd,
      s.master,
      s.lanes[w := NextLane(x)],
      s.hist + LaneEvents(w, x))
  }

  // evaluation in thread 0. The two loops of N turns run N times, the two of N - 1 turns
  // are skipped when N is 1.
  function NextMaster(n: nat, m: Master): Master {
    match m.pc
    case ProbesStart => m.(pc := Fork)
    case Fork => m.(pc := GatherReady, i := 0)
    case GatherReady => if m.i + 1 < n then m.(i := m.i + 1) else m.(pc := PostGo, i := 0)
    case PostGo => if m.i + 1 < n then m.(i := m.i + 1) else m.(pc := WaitChild, i := m.i + 1)
    case WaitChild => m.(pc := if n > 1 then GatherFinished else ProbesStop, i := 0)
    case GatherFinished => if m.i + 2 < n then m.(i := m.i + 1) else m.(pc := PostLeave, i := 0)
    case PostLeave => if m.i + 2 < n then m.(i := m.i + 1) else m.(pc := ProbesStop, i := m.i + 1)
    case ProbesStop => Master(m.round + 1, ProbesStart, 0)
  }

  function MasterEvents(m: Master): seq<Event> {
    match m.pc
    case ProbesStart => [Started(m.round)]
    case ProbesStop => [Stopped(m.round)]
    case _ => []
  }

  function MasterApply(s: State, tok: nat): State
    requires s.master.pc.Fork? || s.master.pc.WaitChild? ==> |s.lanes| > 0
  {
    var m := s.master;
    State(
      if m.pc.GatherReady? || m.pc.GatherFinished? then s.father - multiset{tok} else s.father,
      if m.pc.PostGo? then s.process + multiset{m.round} else s.process,
      if m.pc.PostLeave? then s.processEnd + multiset{m.round} else s.processEnd,
      NextMaster(|s.lanes|, m),
      if m.pc.Fork? then s.lanes[0 := s.lanes[0].(pc := PostReady)]
      else if m.pc.WaitChild? then s.lanes[0 := Lane(s.lanes[0].round + 1, NotForked)]
      else s.lanes,
      s.hist + MasterEvents(m))
  }

  function Apply(c: Config, s: State, st: Step): State
    requires Enabled(c, s, st)
  {
    match st
    case LaneStep(w, tok) => LaneApply(s, w, tok)
    case MasterStep(tok) => MasterApply(s, tok)
  }

  /** st is a possible interleaving from s. */
  predicate Run(c: Config, s: State, st: seq<Step>)
    decreases |st|
  {
    st == [] || (Enabled(c, s, st[0]) && Run(c, Apply(c, s, st[0]), st[1..]))
  }

  function After(c: Config, s: State, st: seq<Step>): State
    requires Run(c, s, st)
    decreases |st|
  {
    if st == [] then s else After(c, Apply(c, s, st[0]), st[1..])
  }

  ghost predicate Reachable(c: Config, s: State) {
    exists st: seq<Step> :: Run(c, Init(c), st) && After(c, Init(c), st) == s
  }

  ghost predicate Stuck(c: Config, s: State) {
    forall st: Step :: !Enabled(c, s, st)
  }

  // All rounds done: thread 0 has left its loop and so has every other thread.
  predicate Final(c: Config, s: State) {
    && s.master == Master(c.Rounds(), ProbesStart, 0)
    && forall w :: 0 <= w < |s.lanes| ==> s.lanes[w] == Lane(c.Rounds(), NotForked)
  }
}
