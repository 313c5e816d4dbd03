// The energy server (probes/libenergyserver/server/energyserver.c) with one client
// (probes/libenergyserver/libenergyserver.c): a rendezvous over the semaphores measure and
// read, a shared energy array, and the wrapping counters of EnergyMsr underneath. Energies
// are in ticks of each socket.
//
// now is the true tick count of every socket. The environment's duty, which the 20 s period
// of the server is there for, is in Tick: no socket makes 2^32 ticks between two reads.

module EnergyServer {
  import opened Arithmetic
  import opened EnergyMsr

  datatype ServerPc = Top | Waiting | Updating | Stopping | Copying | PostRead | Restarting | Exited

  datatype ClientPc = Idle | PostStart | WaitStart | Measuring | PostStop | WaitStop | CopyOut

  // One stretch measured by the server: start read at from, stop read at upto.
  datatype Window = Window(from: seq<nat>, upto: seq<nat>, sent: seq<int>)

  // One start/stop pair of the client: the true counts when it called start and when its stop
  // returned, what it got, and which answer that was.
  datatype Outcome = Outcome(called: seq<nat>, returned: seq<nat>, res: seq<int>, answer: int)

  datatype State = State(
    measure: nat,
    read: nat,
    spc: ServerPc,
    si: nat,
    lastResults: seq<int>,
    energy: seq<int>,
    wantsStop: bool,
    msr: seq<Counter>,
    cpc: ClientPc,
    ci: nat,
    res: seq<int>,
    // true counts: now, at the server's last start, at its last read
    now: seq<nat>,
    ref: seq<nat>,
    last: seq<nat>,
    // history
    called: seq<nat>,
    answers: nat,
    log: seq<Window>,
    outcomes: seq<Outcome>)

  datatype WaitResult = Taken | TimedOut | Interrupted

  datatype Step =
    | Tick(later: seq<nat>)
    | Signal
    | Server(w: WaitResult, raws: seq<nat>)
    | Client

  predicate AllAtLeast(a: seq<nat>, b: seq<nat>) {
    |a| == |b| && forall s :: 0 <= s < |a| ==> a[s] >= b[s]
  }

  // The registers show the true counts modulo 2^32.
  predicate Shown(raws: seq<nat>, now: seq<nat>) {
    |raws| == |now| && forall s :: 0 <= s < |now| ==> raws[s] % WORD == now[s] % WORD
  }

  // start(energy_ctx) before the service loop.
  function Boot(t0: seq<nat>, raws: seq<nat>): State
    requires Shown(raws, t0)
  {
    var n := |t0|;
    State(0, 0, Top, 0, seq(n, _ => 0), seq(n, _ => 0), false,
          seq(n, s requires 0 <= s < n => Begin(raws[s])),
          Idle, 0, seq(n, _ => 0), t0, t0, t0, t0, 0, [], [])
  }

  predicate InTime(s: State, later: seq<nat>)
    requires |later| == |s.last| == |s.ref|
  {
    forall k :: 0 <= k < |later| ==>
      later[k] - s.last[k] < WORD && later[k] / WORD - s.ref[k] / WORD < WORD
  }

  predicate Sized(s: State) {
    |s.now| == |s.ref| == |s.last| == |s.called| == |s.msr| == |s.energy| == |s.lastResults| == |s.res|
  }

  // sem_timedwait reports a timeout only when no token is there.
  predicate Enabled(s: State, st: Step)
    requires Sized(s)
  {
    match st
    case Tick(later) => AllAtLeast(later, s.now) && InTime(s, later)
    case Signal => true
    case Server(w, raws) =>
      && Shown(raws, s.now)
      && (match s.spc
          case Waiting =>
            (match w
             case Taken => s.measure > 0
             case TimedOut => s.measure == 0
             case Interrupted => s.wantsStop)
          case Exited => false
          case _ => true)
    case Client => s.cpc.WaitStart? || s.cpc.WaitStop? ==> s.read > 0
  }

  function Reads(raws: seq<nat>, msr: seq<Counter>): seq<Counter>
    requires |raws| == |msr|
  {
    seq(|msr|, k requires 0 <= k < |msr| => Advance(msr[k], Some(raws[k])))
  }

  function Begins(raws: seq<nat>): seq<Counter> {
    seq(|raws|, k requires 0 <= k < |raws| => Begin(raws[k]))
  }

  function Results(msr: seq<Counter>): seq<int> {
    seq(|msr|, k requires 0 <= k < |msr| => Elapsed(msr[k]))
  }

  // The service loop.
  function ServerApply(s: State, w: WaitResult, raws: seq<nat>): State
    requires Sized(s) && |raws| == |s.now|
  {
    match s.spc
    case Top => s.(spc := if s.wantsStop then Exited else Waiting)
    case Waiting =>
      (match w
       case Taken => if s.measure > 0 then s.(measure := s.measure - 1, spc := Stopping) else s
       case TimedOut => s.(spc := Updating)
       case Interrupted => s.(spc := Top))
    case Updating => s.(msr := Reads(raws, s.msr), last := s.now, spc := Top)
    case Stopping =>
      var msr := Reads(raws, s.msr);
      s.(msr := msr, last := s.now, lastResults := Results(msr), spc := Copying, si := 0,
         log := s.log + [Window(s.ref, s.now, Results(msr))])
    case Copying =>
      if s.si < |s.energy| then s.(energy := s.energy[s.si := s.lastResults[s.si]], si := s.si + 1)
      else s.(spc := PostRead)
    case PostRead => s.(read := s.read + 1, spc := Restarting)
    case Restarting => s.(msr := Begins(raws), ref := s.now, last := s.now, spc := Top)
    case Exited => s
  }

  // start and stop of the client.
  function ClientApply(s: State): State
    requires Sized(s)
  {
    match s.cpc
    case Idle => s.(called := s.now, cpc := PostStart)
    case PostStart => s.(measure := s.measure + 1, cpc := WaitStart)
    case WaitStart => if s.read > 0 then s.(read := s.read - 1, answers := s.answers + 1, cpc := Measuring) else s
    case Measuring => s.(cpc := PostStop)
    case PostStop => s.(measure := s.measure + 1, cpc := WaitStop)
    case WaitStop =>
      if s.read > 0 then s.(read := s.read - 1, answers := s.answers + 1, cpc := CopyOut, ci := 0) else s
    case CopyOut =>
      if s.ci < |s.res| then s.(res := s.res[s.ci := s.energy[s.ci]], ci := s.ci + 1)
      else s.(outcomes := s.outcomes + [Outcome(s.called, s.now, s.res, s.answers - 1)], cpc := Idle)
  }

  function Apply(s: State, st: Step): (s': State)
    requires Sized(s) && Enabled(s, st)
    ensures Sized(s')
  {
    match st
    case Tick(later) => s.(now := later)
    case Signal => s.(wantsStop := true)
    case Server(w, raws) => ServerApply(s, w, raws)
    case Client => ClientApply(s)
  }

  predicate Run(s: State, st: seq<Step>)
    requires Sized(s)
    decreases |st|
  {
    st == [] || (Enabled(s, st[0]) && Run(Apply(s, st[0]), st[1..]))
  }

  function After(s: State, st: seq<Step>): (s': State)
    requires Sized(s) && Run(s, st)
    ensures Sized(s')
    decreases |st|
  {
    if st == [] then s else After(Apply(s, st[0]), st[1..])
  }
}
