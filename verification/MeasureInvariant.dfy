// The invariant of the measurement protocol.
//
// The controller and its measure threads meet at the barrier twice in each round, so their
// clocks differ by little and the barrier's own invariant says who can be inside the measuring
// loop. The stop flag is clear from before the first barrier of a round until the controller
// stops it. The entry of each core in cycles, and what the controller has copied from it, are
// the sum of that core's accumulations in the round.

module MeasureInvariant {
  import opened TimerBarrier
  import opened BarrierTheorems
  import opened TimerMeasure

  // Barrier calls and returns so far: four per round.
  function ThClock(x: Th): int {
    4 * x.k +
    (match x.pc
     case AtStart => 0
     case InStart => 1
     case InStop => 3
     case _ => 2)
  }

  function CtlClock(c: Ctl): int {
    4 * c.k +
    (match c.pc
     case StartWait => 1
     case Measuring => 2
     case Stopping => 2
     case StopWait => 3
     case _ => 0)
  }

  function Clocks(ths: seq<Th>, c: Ctl): seq<int> {
    seq(|ths|, t requires 0 <= t < |ths| => ThClock(ths[t])) + [CtlClock(c)]
  }

  // Inside the measuring loop, between the two barriers.
  predicate InLoop(x: Th) {
    x.pc.Resetting? || x.pc.Checking? || x.pc.Loading? || x.pc.Storing? || x.pc.AtStop?
  }

  function SumOf(hist: seq<Acc>, t: nat, k: nat): int {
    if hist == [] then 0
    else
      var e := hist[|hist| - 1];
      SumOf(hist[..|hist| - 1], t, k) + (if e.t == t && e.k == k then e.amount else 0)
  }

  predicate FlagInv(s: Sys) {
    match s.ctl.pc
    case Starting => !s.stopper
    case StartWait => !s.stopper
    case Measuring => !s.stopper
    case Stopping => s.stopper
    case StopWait => s.stopper
    case Reading => s.stopper
    case _ => s.ctl.k > 0 ==> s.stopper
  }

  // The round whose window the controller is handling.
  function Window(c: Ctl): int { if c.pc.Reading? then c.k - 1 else c.k }

  // cycles[t] is known to hold the window's accumulations.
  predicate Tracked(s: Sys, t: nat) {
    match s.ctl.pc
    case Idle => false
    case Zeroing => t < s.ctl.i
    case _ => true
  }

  predicate DataInv(s: Sys)
    requires Sized(s)
  {
    && (s.ctl.pc.Reading? ==> s.ctl.k > 0)
    && s.ctl.i <= |s.ths|
    && |s.results| == Window(s.ctl)
    && (forall e :: e in s.hist ==> e.t < |s.ths| && 4 * e.k + 2 <= ThClock(s.ths[e.t]))
    && (forall t: nat :: t < |s.ths| && Tracked(s, t) ==> s.cycles[t] == SumOf(s.hist, t, Window(s.ctl)))
    && (forall t: nat :: s.ctl.pc.Reading? && t < s.ctl.i ==> s.pCycles[t] == SumOf(s.hist, t, Window(s.ctl)))
    && (forall t: nat :: t < |s.ths| && s.ths[t].pc.Storing? ==> s.ths[t].tmp == s.cycles[t])
    && (forall j: nat :: j < |s.results| ==> |s.results[j]| == |s.ths|)
    && (forall j: nat, t: nat :: j < |s.results| && t < |s.ths| ==> s.results[j][t] == SumOf(s.hist, t, j))
  }

  ghost predicate SysInv(s: Sys, g: int) {
    Sized(s) && BarrierTheorems.Inv(s.b, Clocks(s.ths, s.ctl), g) && FlagInv(s) && DataInv(s)
  }

  // ---------- preservation ----------

  lemma ClocksThread(ths: seq<Th>, c: Ctl, t: nat, x: Th)
    requires t < |ths|
    ensures Clocks(ths[t := x], c) == Clocks(ths, c)[t := ThClock(x)]
  {
  }

  lemma ClocksCtl(ths: seq<Th>, c: Ctl, c': Ctl)
    ensures Clocks(ths, c') == Clocks(ths, c)[|ths| := CtlClock(c')]
  {
  }

  // Any participant's move at the barrier, or away from it.
  lemma BarrierMove(b: View, b': View, cs: seq<int>, cs': seq<int>, p: nat, g: int, enters: bool, leaves: bool, half: int)
    returns (g': int)
    requires BarrierTheorems.Inv(b, cs, g) && p < |cs| == |cs'|
    requires cs' == cs[p := cs'[p]]
    requires if enters then cs[p] == 2 * half && b' == EnterView(|cs|, b, p)
                           && cs'[p] == cs[p] + (if b.count + 1 == |cs| then 2 else 1)
             else if leaves then p in b.signalled && b' == ReturnView(b, p) && cs'[p] == cs[p] + 1
             else b' == b && cs'[p] == cs[p]
    ensures BarrierTheorems.Inv(b', cs', g')
  {
    g' := g;
    if enters {
      if b.count + 1 == |cs| {
        CallOpens(b, cs, g, p);
        g' := g + 1;
      } else {
        CallBlocks(b, cs, g, p);
      }
    } else if leaves {
      WakeKeeps(b, cs, g, p);
    } else {
      assert cs' == cs;
    }
  }

  lemma ThClockStep(x: Th, opens: bool, stopper: bool, cycles: int)
    ensures ThClock(NextTh(x, opens, stopper, cycles)) == ThClock(x) +
              (if x.pc.AtStart? || x.pc.AtStop? then (if opens then 2 else 1)
               else if x.pc.InStart? || x.pc.InStop? then 1 else 0)
  {
  }

  lemma CtlClockStep(c: Ctl, m: nat, opens: bool)
    ensures CtlClock(NextCtl(c, m, opens)) == CtlClock(c) +
              (if c.pc.Starting? || c.pc.Stopping? then (if opens then 2 else 1)
               else if c.pc.StartWait? || c.pc.StopWait? then 1 else 0)
  {
  }

  lemma ThreadKeepsBarrier(s: Sys, t: nat, amount: int, g: int) returns (g': int)
    requires Sized(s) && CanThread(s, t) && BarrierTheorems.Inv(s.b, Clocks(s.ths, s.ctl), g)
    ensures var s' := ThreadAct(s, t, amount); BarrierTheorems.Inv(s'.b, Clocks(s'.ths, s'.ctl), g')
  {
    var x := s.ths[t];
    var x' := NextTh(x, Opens(s), s.stopper, s.cycles[t]);
    ThClockStep(x, Opens(s), s.stopper, s.cycles[t]);
    ClocksThread(s.ths, s.ctl, t, x');
    g' := BarrierMove(s.b, ThreadAct(s, t, amount).b, Clocks(s.ths, s.ctl), Clocks(s.ths[t := x'], s.ctl), t, g,
                      x.pc.AtStart? || x.pc.AtStop?, x.pc.InStart? || x.pc.InStop?,
                      2 * x.k + (if x.pc.AtStop? then 1 else 0));
  }

  lemma ControllerKeepsBarrier(s: Sys, g: int) returns (g': int)
    requires Sized(s) && CanController(s) && BarrierTheorems.Inv(s.b, Clocks(s.ths, s.ctl), g)
    ensures var s' := ControllerAct(s); BarrierTheorems.Inv(s'.b, Clocks(s'.ths, s'.ctl), g')
  {
    var c, c', m := s.ctl, ControllerAct(s).ctl, |s.ths|;
    CtlClockStep(c, m, Opens(s));
    ClocksCtl(s.ths, c, c');
    g' := BarrierMove(s.b, ControllerAct(s).b, Clocks(s.ths, c), Clocks(s.ths, c'), m, g,
                      c.pc.Starting? || c.pc.Stopping?, c.pc.StartWait? || c.pc.StopWait?,
                      2 * c.k + (if c.pc.Stopping? then 1 else 0));
  }

  // A thread inside the loop of round k: the controller is between its two barrier calls of
  // round k, inside them included.
  lemma LoopIsInWindow(s: Sys, g: int, t: nat)
    requires Sized(s) && BarrierTheorems.Inv(s.b, Clocks(s.ths, s.ctl), g) && t < |s.ths|
    ensures ThClock(s.ths[t]) - 2 <= CtlClock(s.ctl) <= ThClock(s.ths[t]) + 2
    ensures CtlClock(s.ctl) % 4 == 0 ==> ThClock(s.ths[t]) <= CtlClock(s.ctl) + 1
    ensures InLoop(s.ths[t]) ==>
              s.ctl.k == s.ths[t].k
              && (s.ctl.pc.StartWait? || s.ctl.pc.Measuring? || s.ctl.pc.Stopping? || s.ctl.pc.StopWait?)
  {
    var cs := Clocks(s.ths, s.ctl);
    assert cs[t] == ThClock(s.ths[t]) && cs[|s.ths|] == CtlClock(s.ctl);
  }

  lemma {:induction false} SumSnoc(hist: seq<Acc>, e: Acc, t: nat, k: nat)
    ensures SumOf(hist + [e], t, k) == SumOf(hist, t, k) + (if e.t == t && e.k == k then e.amount else 0)
  {
    assert (hist + [e])[..|hist|] == hist;
  }

  lemma {:induction false} NoEventsNoSum(hist: seq<Acc>, t: nat, k: nat)
    requires forall e :: e in hist ==> e.t != t || e.k != k
    ensures SumOf(hist, t, k) == 0
  {
    if hist != [] {
      assert hist[|hist| - 1] in hist;
      assert forall e :: e in hist[..|hist| - 1] ==> e in hist;
      NoEventsNoSum(hist[..|hist| - 1], t, k);
    }
  }

  lemma StoreKeepsData(s: Sys, s': Sys, g: int, t: nat, amount: int)
    requires SysInv(s, g) && t < |s.ths| && s.ths[t].pc.Storing?
    requires s' == s.(ths := s.ths[t := s.ths[t].(pc := Checking)],
                      cycles := s.cycles[t := s.ths[t].tmp + amount],
                      hist := s.hist + [Acc(t, s.ths[t].k, amount)])
    ensures DataInv(s')
  {
    LoopIsInWindow(s, g, t);
    var e := Acc(t, s.ths[t].k, amount);
    forall u: nat, k: nat { SumSnoc(s.hist, e, u, k); }
  }

  lemma QuietThreadKeepsData(s: Sys, s': Sys, t: nat)
    requires Sized(s) && DataInv(s) && t < |s.ths| == |s'.ths|
    requires s'.ths == s.ths[t := s'.ths[t]] && s' == s.(b := s'.b, ths := s'.ths)
    requires ThClock(s'.ths[t]) >= ThClock(s.ths[t])
    requires s'.ths[t].pc.Storing? ==> s'.ths[t].tmp == s.cycles[t]
    ensures DataInv(s')
  {
  }

  lemma ThreadKeepsData(s: Sys, g: int, t: nat, amount: int)
    requires SysInv(s, g) && CanThread(s, t)
    ensures DataInv(ThreadAct(s, t, amount))
  {
    if s.ths[t].pc.Storing? {
      StoreKeepsData(s, ThreadAct(s, t, amount), g, t, amount);
    } else {
      QuietThreadKeepsData(s, ThreadAct(s, t, amount), t);
    }
  }

  lemma ZeroKeepsData(s: Sys, s': Sys, g: int)
    requires SysInv(s, g) && s.ctl.pc.Zeroing? && s.ctl.i < |s.ths|
    requires s' == s.(ctl := s.ctl.(i := s.ctl.i + 1), cycles := s.cycles[s.ctl.i := 0])
    ensures DataInv(s')
  {
    var i := s.ctl.i;
    LoopIsInWindow(s, g, i);
    NoEventsNoSum(s.hist, i, s.ctl.k);
  }

  lemma ReadKeepsData(s: Sys, s': Sys)
    requires Sized(s) && DataInv(s) && s.ctl.pc.Reading? && s.ctl.i < |s.ths|
    requires s' == s.(ctl := s.ctl.(i := s.ctl.i + 1), pCycles := s.pCycles[s.ctl.i := s.cycles[s.ctl.i]])
    ensures DataInv(s')
  {
    assert Tracked(s, s.ctl.i);
  }

  lemma ReturnKeepsData(s: Sys, s': Sys)
    requires Sized(s) && DataInv(s) && s.ctl.pc.Reading? && s.ctl.i >= |s.ths|
    requires s' == s.(ctl := s.ctl.(pc := Idle), results := s.results + [s.pCycles])
    ensures DataInv(s')
  {
  }

  predicate PlainCtl(s: Sys) {
    match s.ctl.pc
    case Zeroing => s.ctl.i >= |s.ths|
    case Reading => false
    case _ => true
  }

  lemma PlainKeepsData(s: Sys, s': Sys, opens: bool)
    requires Sized(s) && DataInv(s) && PlainCtl(s)
    requires s' == s.(b := s'.b, ctl := NextCtl(s.ctl, |s.ths|, opens), stopper := s'.stopper)
    ensures DataInv(s')
  {
    assert Window(s'.ctl) == Window(s.ctl);
    forall t: nat | t < |s.ths| && Tracked(s', t)
      ensures s'.cycles[t] == SumOf(s'.hist, t, Window(s'.ctl))
    {
      assert Tracked(s, t);
    }
  }

  lemma ControllerKeepsData(s: Sys, g: int)
    requires SysInv(s, g) && CanController(s)
    ensures DataInv(ControllerAct(s))
  {
    var s' := ControllerAct(s);
    if s.ctl.pc.Zeroing? && s.ctl.i < |s.ths| {
      ZeroKeepsData(s, s', g);
    } else if s.ctl.pc.Reading? {
      if s.ctl.i < |s.ths| { ReadKeepsData(s, s'); } else { ReturnKeepsData(s, s'); }
    } else {
      PlainKeepsData(s, s', Opens(s));
    }
  }

  lemma ActKeepsInv(s: Sys, g: int, a: Act) returns (g': int)
    requires SysInv(s, g) && Can(s, a)
    ensures SysInv(Do(s, a), g')
  {
    match a {
      case Thread(t, amount) =>
        ThreadKeepsData(s, g, t, amount);
        g' := ThreadKeepsBarrier(s, t, amount, g);
      case Controller =>
        ControllerKeepsData(s, g);
        g' := ControllerKeepsBarrier(s, g);
    }
  }

  lemma {:induction false} RunsKeepInv(s: Sys, g: int, a: seq<Act>) returns (g': int)
    requires SysInv(s, g) && Runs(s, a)
    ensures SysInv(Then(s, a), g')
    decreases |a|
  {
    if a == [] {
      g' := g;
    } else {
      g' := ActKeepsInv(s, g, a[0]);
      g' := RunsKeepInv(Do(s, a[0]), g', a[1..]);
    }
  }

  lemma StartInv(m: nat)
    requires 1 <= m
    ensures SysInv(Start(m), 0)
  {
    var cs := Clocks(Start(m).ths, Start(m).ctl);
    assert forall p :: 0 <= p < |cs| ==> cs[p] == 0;
  }
}
