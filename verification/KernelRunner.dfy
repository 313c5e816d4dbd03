// The kernel mode of src/KernelRunner.cpp: N worker threads and one forked synchronisation
// process, three counting semaphores, 2 * nbMetaRepet rounds.
//
// Every thread is a program counter; one step is one semaphore operation, one probe call,
// or the entry or exit of the kernel. A semaphore is a multiset of tokens: its value is the
// number of tokens, and each token carries, for the proof only, the number of the half round
// it was posted for (2 * r for "ready to run round r", 2 * r + 1 for "round r is finished").
// A wait may take any token, so that taking a token meant for another round is possible in
// the model and its absence is a theorem.

module KernelRunner {
  datatype Config = Config(nbProcess: nat, nbMetaRepet: nat) {
    // Overhead rounds, then measured rounds.
    function Rounds(): nat { 2 * nbMetaRepet }
  }

  datatype Pc =
    | PostReady | WaitGo | ProbesStart | CallKernel | InKernel
    | ProbesStop | PostDone | WaitEnd | Kill | Done

  datatype Worker = Worker(round: nat, pc: Pc)

  datatype SyncPc = GatherReady | PostGo | GatherDone | PostEnd

  datatype Sync = Sync(alive: bool, round: nat, pc: SyncPc, i: nat)

  datatype Event =
    | Started(r: nat)
    | Entered(w: nat, r: nat)
    | Exited(w: nat, r: nat)
    | Stopped(r: nat)

  datatype State = State(
    father: multiset<nat>,
    process: multiset<nat>,
    processEnd: multiset<nat>,
    workers: seq<Worker>,
    sync: Sync,
    hist: seq<Event>)

  datatype Step = WorkerStep(w: nat, tok: nat) | SyncStep(tok: nat)

  // ---------- the threads ----------

  // Where a worker goes when it is about to begin round r.
  function RoundStart(c: Config, w: nat, r: nat): Worker {
    if r < c.Rounds() then Worker(r, PostReady) else Worker(r, if w == 0 then Kill else Done)
  }

  function Init(c: Config): State {
    State(multiset{}, multiset{}, multiset{},
          seq(c.nbProcess, w requires 0 <= w < c.nbProcess => RoundStart(c, w, 0)),
          Sync(true, 0, GatherReady, 0), [])
  }

  predicate Enabled(c: Config, s: State, st: Step) {
    match st
    case WorkerStep(w, tok) =>
      w < |s.workers| &&
      (match s.workers[w].pc
       case WaitGo => tok in s.process
       case WaitEnd => tok in s.processEnd
       case Done => false
       case _ => true)
    case SyncStep(tok) =>
      s.sync.alive && (s.sync.pc.GatherReady? || s.sync.pc.GatherDone? ==> tok in s.father)
  }

  // KernelRunner::evaluation, line by line, and the kill at the end of KernelRunner::start.
  function NextWorker(c: Config, w: nat, x: Worker): Worker {
    match x.pc
    case PostReady => x.(pc := WaitGo)
    case WaitGo => x.(pc := if w == 0 then ProbesStart else CallKernel)
    case ProbesStart => x.(pc := CallKernel)
    case CallKernel => x.(pc := InKernel)
    case InKernel => x.(pc := if w == 0 then ProbesStop else PostDone)
    case ProbesStop => x.(pc := PostDone)
    case PostDone => x.(pc := WaitEnd)
    case WaitEnd => RoundStart(c, w, x.round + 1)
    case Kill => x.(pc := Done)
    case Done => x
  }

  function NewEvents(w: nat, x: Worker): seq<Event> {
    match x.pc
    case ProbesStart => [Started(x.round)]
    case CallKernel => [Entered(w, x.round)]
    case InKernel => [Exited(w, x.round)]
    case ProbesStop => [Stopped(x.round)]
    case _ => []
  }

  function WorkerApply(c: Config, s: State, w: nat, tok: nat): State
    requires w < |s.workers|
  {
    var x := s.workers[w];
    State(
      if x.pc.PostReady? then s.father + multiset{2 * x.round}
      else if x.pc.PostDone? then s.father + multiset{2 * x.round + 1}
      else s.father,
      if x.pc.WaitGo? then s.process - multiset{tok} else s.process,
      if x.pc.WaitEnd? then s.processEnd - multiset{tok} else s.processEnd,
      s.workers[w := NextWorker(c, w, x)],
      if x.pc.Kill? then s.sync.(alive := false) else s.sync,
      s.hist + NewEvents(w, x))
  }

  // The four counting loops of KernelRunner::syncLoop.
  function NextSync(c: Config, y: Sync): Sync {
    if y.i + 1 < c.nbProcess then y.(i := y.i + 1)
    else
      match y.pc
      case GatherReady => y.(pc := PostGo, i := 0)
      case PostGo => y.(pc := GatherDone, i := 0)
      case GatherDone => y.(pc := PostEnd, i := 0)
      case PostEnd => y.(round := y.round + 1, pc := GatherReady, i := 0)
  }

  function SyncApply(c: Config, s: State, tok: nat): State {
    var y := s.sync;
    s.(father := if y.pc.GatherReady? || y.pc.GatherDone? then s.father - multiset{tok} else s.father,
       process := if y.pc.PostGo? then s.process + multiset{2 * y.round} else s.process,
       processEnd := if y.pc.PostEnd? then s.processEnd + multiset{2 * y.round + 1} else s.processEnd,
       sync := NextSync(c, y))
  }

  function Apply(c: Config, s: State, st: Step): State
    requires Enabled(c, s, st)
  {
    match st
    case WorkerStep(w, tok) => WorkerApply(c, s, w, tok)
    case SyncStep(tok) => SyncApply(c, s, tok)
  }

  /** st is a possible interleaving from s. */
  predicate Run(c: Config, s: State, st: seq<Step>)
    decreases |st|
  {
    st == [] || (Enabled(c, s, st[0]) && Run(c, Apply(c, s, st[0]), st[1..]))
  }

  function After(c: Config, s: State, st: seq<Step>): State
    requires Run(c, s, st)
    decreases |st|
  {
    if st == [] then s else After(c, Apply(c, s, st[0]), st[1..])
  }

  predicate Final(s: State) {
    forall w :: 0 <= w < |s.workers| ==> s.workers[w].pc.Done?
  }

  ghost predicate Stuck(c: Config, s: State) {
    forall st: Step :: !Enabled(c, s, st)
  }
}
