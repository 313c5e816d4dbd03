// What the measurement protocol guarantees over every run.

module MeasureTheorems {
  import opened TimerMeasure
  import opened MeasureInvariant

  /** Ownership. Whenever the controller zeroes or reads a cycles field, clears the stop flag
      or is between two measurements, every thread is outside its measuring loop; and a thread
      inside the loop of round k has the controller between its barrier calls of round k. */
  lemma Ownership(m: nat, a: seq<Act>, t: nat)
    requires 1 <= m && t < m && Runs(Start(m), a)
    ensures var s := Then(Start(m), a);
            && (s.ctl.pc.Idle? || s.ctl.pc.Zeroing? || s.ctl.pc.ClearFlag? || s.ctl.pc.Reading? ==>
                  !InLoop(s.ths[t]))
            && (InLoop(s.ths[t]) ==> s.ctl.k == s.ths[t].k)
  {
    StartInv(m);
    var g := RunsKeepInv(Start(m), 0, a);
    LoopIsInWindow(Then(Start(m), a), g, t);
  }

  /** The stop flag, once set by stop, is cleared only when every thread has left its loop. */
  lemma FlagStaysUntilAllLeft(m: nat, a: seq<Act>, x: Act, t: nat)
    requires 1 <= m && t < m && Runs(Start(m), a) && Can(Then(Start(m), a), x)
    requires Then(Start(m), a).stopper && !Do(Then(Start(m), a), x).stopper
    ensures !InLoop(Then(Start(m), a).ths[t])
  {
    Ownership(m, a, t);
  }

  /** Each start/stop pair gives each thread exactly one window: what stop returned for core t
      at measurement j is the sum of everything thread t has accumulated in its j-th passage of
      the measuring loop, over the whole run. */
  lemma ResultsAreWindows(m: nat, a: seq<Act>, j: nat, t: nat)
    requires 1 <= m && t < m && Runs(Start(m), a) && j < |Then(Start(m), a).results|
    ensures var s := Then(Start(m), a);
            |s.results[j]| == m && s.results[j][t] == SumOf(s.hist, t, j)
  {
    StartInv(m);
    var g := RunsKeepInv(Start(m), 0, a);
  }

  // ---------- what the threads measure ----------

  // How often, in this run from s, thread t has found the stop flag clear in its round k.
  function ClearLooks(s: Sys, a: seq<Act>, t: nat, k: nat): nat
    requires Sized(s) && Runs(s, a) && t < |s.ths|
    decreases |a|
  {
    if a == [] then 0
    else
      (if a[0].Thread? && a[0].t == t && s.ths[t].pc.Checking? && s.ths[t].k == k && !s.stopper then 1 else 0)
      + ClearLooks(Do(s, a[0]), a[1..], t, k)
  }

  // The cycles that thread t has counted behind these looks, as the actions of the run give them.
  function Counted(s: Sys, a: seq<Act>, t: nat, k: nat): int
    requires Sized(s) && Runs(s, a) && t < |s.ths|
    decreases |a|
  {
    if a == [] then 0
    else
      (if a[0].Thread? && a[0].t == t && s.ths[t].pc.Storing? && s.ths[t].k == k then a[0].amount else 0)
      + Counted(Do(s, a[0]), a[1..], t, k)
  }

  function Accumulations(hist: seq<Acc>, t: nat, k: nat): nat {
    if hist == [] then 0
    else
      var e := hist[|hist| - 1];
      Accumulations(hist[..|hist| - 1], t, k) + (if e.t == t && e.k == k then 1 else 0)
  }

  // Thread t has found the flag clear in round k and not yet accumulated.
  function UnderWay(s: Sys, t: nat, k: nat): nat
    requires t < |s.ths|
  {
    if (s.ths[t].pc.Loading? || s.ths[t].pc.Storing?) && s.ths[t].k == k then 1 else 0
  }

  lemma AccumulationsSnoc(hist: seq<Acc>, e: Acc, t: nat, k: nat)
    ensures Accumulations(hist + [e], t, k) == Accumulations(hist, t, k) + (if e.t == t && e.k == k then 1 else 0)
  {
    assert (hist + [e])[..|hist|] == hist;
  }

  lemma OneAct(s: Sys, x: Act, t: nat, k: nat)
    requires Sized(s) && Can(s, x) && t < |s.ths|
    ensures var s', me := Do(s, x), x.Thread? && x.t == t && s.ths[t].k == k;
            && Accumulations(s'.hist, t, k) + UnderWay(s', t, k)
               == Accumulations(s.hist, t, k) + UnderWay(s, t, k)
                  + (if me && s.ths[t].pc.Checking? && !s.stopper then 1 else 0)
            && SumOf(s'.hist, t, k) == SumOf(s.hist, t, k) + (if me && s.ths[t].pc.Storing? then x.amount else 0)
  {
    if x.Thread? && s.ths[x.t].pc.Storing? {
      var e := Acc(x.t, s.ths[x.t].k, x.amount);
      AccumulationsSnoc(s.hist, e, t, k);
      SumSnoc(s.hist, e, t, k);
    }
  }

  lemma {:induction false} ActsAddUp(s: Sys, a: seq<Act>, t: nat, k: nat)
    requires Sized(s) && Runs(s, a) && t < |s.ths|
    ensures var s' := Then(s, a);
            && Accumulations(s'.hist, t, k) + UnderWay(s', t, k)
               == Accumulations(s.hist, t, k) + UnderWay(s, t, k) + ClearLooks(s, a, t, k)
            && SumOf(s'.hist, t, k) == SumOf(s.hist, t, k) + Counted(s, a, t, k)
    decreases |a|
  {
    if a != [] {
      OneAct(s, a[0], t, k);
      ActsAddUp(Do(s, a[0]), a[1..], t, k);
    }
  }

  /** Over every run, in every round of every thread: each look at a clear flag is followed by
      exactly one accumulation, but for a look whose accumulation is under way. */
  lemma EveryLookCounts(m: nat, a: seq<Act>, t: nat, k: nat)
    requires 1 <= m && t < m && Runs(Start(m), a)
    ensures var s := Then(Start(m), a);
            Accumulations(s.hist, t, k) + UnderWay(s, t, k) == ClearLooks(Start(m), a, t, k)
  {
    ActsAddUp(Start(m), a, t, k);
  }

  /** So what stop returns for a core is the sum of the cycles that the thread of the core
      counted in that round of the run, one count for every look at a clear flag. */
  lemma ResultsAreCounts(m: nat, a: seq<Act>, j: nat, t: nat)
    requires 1 <= m && t < m && Runs(Start(m), a) && j < |Then(Start(m), a).results|
    ensures var s := Then(Start(m), a);
            && |s.results[j]| == m && s.results[j][t] == Counted(Start(m), a, t, j)
            && Accumulations(s.hist, t, j) == ClearLooks(Start(m), a, t, j)
  {
    ResultsAreWindows(m, a, j, t);
    ActsAddUp(Start(m), a, t, j);
    WindowIsOver(m, a, j, t);
  }

  // When the result of round j is there, no thread is inside its loop of round j.
  lemma WindowIsOver(m: nat, a: seq<Act>, j: nat, t: nat)
    requires 1 <= m && t < m && Runs(Start(m), a) && j < |Then(Start(m), a).results|
    ensures UnderWay(Then(Start(m), a), t, j) == 0
  {
    StartInv(m);
    var g := RunsKeepInv(Start(m), 0, a);
    LoopIsInWindow(Then(Start(m), a), g, t);
  }

  /** And a thread that has begun to measure goes on until stop is called: it leaves its loop of
      round k exactly when it sees the flag set, which is only while the controller is inside
      its stop of round k. */
  lemma LeavesWhenStopped(m: nat, a: seq<Act>, t: nat, amount: int)
    requires 1 <= m && t < m && Runs(Start(m), a) && Then(Start(m), a).ths[t].pc.Checking?
    ensures var s := Then(Start(m), a);
            var x := Do(s, Thread(t, amount)).ths[t];
            && (x.pc.AtStop? <==> s.ctl.pc.Stopping? || s.ctl.pc.StopWait?)
            && (x.pc.Loading? <==> s.ctl.pc.StartWait? || s.ctl.pc.Measuring?)
            && x.k == s.ctl.k
  {
    StartInv(m);
    var g := RunsKeepInv(Start(m), 0, a);
    LoopIsInWindow(Then(Start(m), a), g, t);
  }
}
