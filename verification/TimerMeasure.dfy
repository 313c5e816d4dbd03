// The measurement protocol of probes/libtimerarm: nbCores measure threads (threadFct.c) and
// the controller that calls start and stop (timer.c), over one barrier of nbCores + 1 parties
// and the shared fields threadMeasureStopper and cycles. Participant nbCores is the
// controller. The accumulation into cycles is split into its read and its write, so that a
// lost update would be visible.

module TimerMeasure {
  import opened TimerBarrier

  datatype ThPc = AtStart | InStart | Resetting | Checking | Loading | Storing | AtStop | InStop

  // k: the thread's round; tmp: the value of cycles it has read.
  datatype Th = Th(k: nat, pc: ThPc, tmp: int)

  datatype CtlPc = Idle | Zeroing | ClearFlag | Starting | StartWait | Measuring | Stopping | StopWait | Reading

  datatype Ctl = Ctl(k: nat, pc: CtlPc, i: nat)

  // One accumulation: thread t added amount in its round k.
  datatype Acc = Acc(t: nat, k: nat, amount: int)

  datatype Sys = Sys(
    b: View,
    ctl: Ctl,
    ths: seq<Th>,
    stopper: bool,
    cycles: seq<int>,
    pCycles: seq<int>,
    hist: seq<Acc>,
    results: seq<seq<int>>)

  datatype Act = Thread(t: nat, amount: int) | Controller

  function Start(m: nat): Sys {
    Sys(View(0, {}, {}), Ctl(0, Idle, 0), seq(m, _ => Th(0, AtStart, 0)), false,
        seq(m, _ => 0), seq(m, _ => 0), [], [])
  }

  predicate CanThread(s: Sys, t: nat) {
    t < |s.ths| && (s.ths[t].pc.InStart? || s.ths[t].pc.InStop? ==> t in s.b.signalled)
  }

  predicate CanController(s: Sys) {
    s.ctl.pc.StartWait? || s.ctl.pc.StopWait? ==> |s.ths| in s.b.signalled
  }

  predicate Can(s: Sys, a: Act) {
    match a
    case Thread(t, _) => CanThread(s, t)
    case Controller => CanController(s)
  }

  function Parties(s: Sys): nat { |s.ths| + 1 }

  function Opens(s: Sys): bool { s.b.count + 1 == Parties(s) }

  // One round of the loop in measureThread.
  function NextTh(x: Th, opens: bool, stopper: bool, cycles: int): Th {
    match x.pc
    case AtStart => x.(pc := if opens then Resetting else InStart)
    case InStart => x.(pc := Resetting)
    case Resetting => x.(pc := Checking)
    case Checking => x.(pc := if stopper then AtStop else Loading)
    case Loading => x.(pc := Storing, tmp := cycles)
    case Storing => x.(pc := Checking)
    case AtStop => if opens then Th(x.k + 1, AtStart, x.tmp) else x.(pc := InStop)
    case InStop => Th(x.k + 1, AtStart, x.tmp)
  }

  function ThreadAct(s: Sys, t: nat, amount: int): Sys
    requires t < |s.ths| == |s.cycles|
  {
    var x := s.ths[t];
    s.(b := if x.pc.AtStart? || x.pc.AtStop? then EnterView(Parties(s), s.b, t)
            else if x.pc.InStart? || x.pc.InStop? then ReturnView(s.b, t)
            else s.b,
       ths := s.ths[t := NextTh(x, Opens(s), s.stopper, s.cycles[t])],
       cycles := if x.pc.Storing? then s.cycles[t := x.tmp + amount] else s.cycles,
       hist := if x.pc.Storing? then s.hist + [Acc(t, x.k, amount)] else s.hist)
  }

  // start, then stop.
  function NextCtl(c: Ctl, m: nat, opens: bool): Ctl {
    match c.pc
    case Idle => c.(pc := Zeroing, i := 0)
    case Zeroing => if c.i < m then c.(i := c.i + 1) else c.(pc := ClearFlag)
    case ClearFlag => c.(pc := Starting)
    case Starting => c.(pc := if opens then Measuring else StartWait)
    case StartWait => c.(pc := Measuring)
    case Measuring => c.(pc := Stopping)
    case Stopping => if opens then Ctl(c.k + 1, Reading, 0) else c.(pc := StopWait)
    case StopWait => Ctl(c.k + 1, Reading, 0)
    case Reading => if c.i < m then c.(i := c.i + 1) else c.(pc := Idle)
  }

  function ControllerAct(s: Sys): Sys
    requires |s.cycles| == |s.pCycles| == |s.ths|
  {
    var c, m := s.ctl, |s.ths|;
    s.(b := if c.pc.Starting? || c.pc.Stopping? then EnterView(Parties(s), s.b, m)
            else if c.pc.StartWait? || c.pc.StopWait? then ReturnView(s.b, m)
            else s.b,
       ctl := NextCtl(c, m, Opens(s)),
       stopper := if c.pc.ClearFlag? then false else if c.pc.Measuring? then true else s.stopper,
       cycles := if c.pc.Zeroing? && c.i < m then s.cycles[c.i := 0] else s.cycles,
       pCycles := if c.pc.Reading? && c.i < m then s.pCycles[c.i := s.cycles[c.i]] else s.pCycles,
       results := if c.pc.Reading? && c.i >= m then s.results + [s.pCycles] else s.results)
  }

  predicate Sized(s: Sys) { 1 <= |s.ths| == |s.cycles| == |s.pCycles| }

  function Do(s: Sys, a: Act): (s': Sys)
    requires Sized(s) && Can(s, a)
    ensures Sized(s') && |s'.ths| == |s.ths|
  {
    match a
    case Thread(t, amount) => ThreadAct(s, t, amount)
    case Controller => ControllerAct(s)
  }

  predicate Runs(s: Sys, a: seq<Act>)
    requires Sized(s)
    decreases |a|
  {
    a == [] || (Can(s, a[0]) && Runs(Do(s, a[0]), a[1..]))
  }

  function Then(s: Sys, a: seq<Act>): (s': Sys)
    requires Sized(s) && Runs(s, a)
    ensures Sized(s') && |s'.ths| == |s.ths|
    decreases |a|
  {
    if a == [] then s else Then(Do(s, a[0]), a[1..])
  }
}
