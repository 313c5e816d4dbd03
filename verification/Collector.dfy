// src/ProbeDataCollector.cpp: starting, stopping and cancelling the probes, and the update
// thread with the rule by which a tick updates a probe. Times are in microseconds.

module Collector {
  import opened Arithmetic
  import opened BasePeriod
  import opened WidePeriods
  import opened ProbeMatrix
  import opened ResultStore

  // elapsedTime is a 64-bit unsigned integer.
  const WRAP: nat := 0x1_0000_0000_0000_0000

  // Positions of probes with a period.
  predicate Active(periods: seq<nat>, probes: seq<nat>) {
    forall k :: 0 <= k < |probes| ==> probes[k] < |periods| && periods[probes[k]] != 0
  }

  // The positions of the probes with a period, in order.
  function Periodic(periods: seq<nat>): (r: seq<nat>)
    ensures Active(periods, r)
  {
    if periods == [] then []
    else
      var n := |periods| - 1;
      Periodic(periods[..n]) + (if periods[n] != 0 then [n] else [])
  }

  lemma PeriodicStep(periods: seq<nat>, i: nat)
    requires i < |periods|
    ensures Periodic(periods[..i + 1]) == Periodic(periods[..i]) + (if periods[i] != 0 then [i] else [])
  {
    assert periods[..i + 1][..i] == periods[..i];
  }

  // ---------- the tick rule ----------

  // relativeTime < 5 && relativeTime > -5
  predicate Due(period: nat, elapsed: nat)
    requires period > 0
  {
    var relativeTime := elapsed % period - period;
    -5 < relativeTime < 5
  }

  // The probes that one tick updates.
  function Updated(periods: seq<nat>, probes: seq<nat>, elapsed: nat): seq<nat>
    requires Active(periods, probes)
  {
    if probes == [] then []
    else
      var n := |probes| - 1;
      var i := probes[n];
      Updated(periods, probes[..n], elapsed) + (if Due(periods[i], elapsed) then [i] else [])
  }

  // The updates of all completed sleeps of base period g; an interrupted one (false) does not
  // count.
  function Updates(g: nat, periods: seq<nat>, elapsed: nat, sleeps: seq<bool>): seq<seq<nat>>
    decreases |sleeps|
  {
    if sleeps == [] then []
    else if !sleeps[0] then Updates(g, periods, elapsed, sleeps[1..])
    else
      var t := (elapsed + g) % WRAP;
      [Updated(periods, Periodic(periods), t)] + Updates(g, periods, t, sleeps[1..])
  }

  lemma UpdatesStep(g: nat, periods: seq<nat>, elapsed: nat, sleeps: seq<bool>, i: nat)
    requires i < |sleeps|
    ensures var t := (elapsed + g) % WRAP;
            Updates(g, periods, elapsed, sleeps[i..])
            == if sleeps[i] then [Updated(periods, Periodic(periods), t)] + Updates(g, periods, t, sleeps[i + 1..])
               else Updates(g, periods, elapsed, sleeps[i + 1..])
  {
    assert sleeps[i..][1..] == sleeps[i + 1..];
  }

  lemma Regroup(a: seq<seq<nat>>, x: seq<nat>, b: seq<seq<nat>>)
    ensures a + ([x] + b) == (a + [x]) + b
  {
  }

  // gcd, when it returns.
  method GcdOf(val1: int, val2: int) returns (g: int)
    requires val1 != 0 && val2 != 0 && IntGcd(val1, val2).Returns?
    ensures IntGcd(val1, val2) == Returns(g)
    decreases if val1 < val2 then AsNat(val1) else AsNat(val2)
  {
    var hi, lo := val1, val2;
    if hi < lo { hi, lo := lo, hi; }
    var ret := Remainder(hi, lo);
    if val1 < 0 || val2 < 0 { NegativeTurn(val1, val2); }
    if ret == 0 { return lo; }
    g := GcdOf(lo, ret);
  }

  // The inner branches of the constructor's loop; gcd gets and returns ints.
  method Take(m: nat, period: nat) returns (r: nat)
    requires 0 < m < WORD && 0 < period < WORD && NextPeriod(m, period).Returns?
    ensures NextPeriod(m, period) == Returns(r)
  {
    if m != INT_MAX {
      var g := GcdOf(AsInt(m), AsInt(period));
      r := AsUnsigned(g);
    } else {
      r := period;
    }
  }

  function AsNat(x: int): nat { if x < 0 then 0 else x }

  datatype Call = Start | Stop | Cancel

  // The loop of stop over the probes.
  method CopySample(results: ExperimentationResults, sample: Sample)
    requires results.Valid() && Fits(sample, results.shapes)
    requires results.shapes == [] || results.nbMeasurement < |results.results|
    modifies results
    ensures results.Valid() && results.nbMeasurement == old(results.nbMeasurement)
    ensures var k, was := results.nbMeasurement, old(results.results);
            results.results == if k < |was| then was[k := RecordOf(sample, results.shapes)] else was
  {
    var i, n := 0, |results.shapes|;
    ghost var k, was := results.nbMeasurement, results.results;
    ghost var record := RecordOf(sample, results.shapes);
    assert k < |was| ==> record[..0] + was[k][0..] == was[k];
    while i < n
      invariant i <= n && results.Valid() && results.nbMeasurement == k && (k < |was| || n == 0)
      invariant k < |was| ==> |was[k]| == n && results.results == was[k := record[..i] + was[k][i..]]
      invariant k >= |was| ==> results.results == was
    {
      var pData := new real[|sample[i]|](j requires 0 <= j < |sample[i]| => sample[i][j]);
      assert pData[..] == sample[i];
      results.SetProbeData(i, pData);
      NextProbe(record, was[k], i);
      i := i + 1;
    }
    assert k < |was| ==> record[..n] + was[k][n..] == record;
  }

  lemma NextProbe(record: Record, was: Record, i: nat)
    requires i < |record| == |was|
    ensures (record[..i] + was[i..])[i := record[i]] == record[..i + 1] + was[i + 1..]
  {
  }

  class ProbeDataCollector {
    const periods: seq<nat>
    const shapes: seq<Shape>
    // The arrays that the probes return when measurement w is stopped.
    const feed: nat -> Sample
    var periodicProbes: seq<nat>
    var needThread: bool
    var minPeriod: nat
    // The calls made so far; the number of measurements started.
    var calls: seq<Call>
    var windows: nat

    ghost predicate Valid()
      reads this
    {
      && |shapes| == |periods| && AllFit(feed, shapes)
      && Unsigned(periods) && PeriodOf(periods) == Returns(minPeriod) && periodicProbes == Periodic(periods)
      && (needThread <==> periodicProbes != [])
    }

    // There is an object only if gcd returns; WidePeriods.ConstructorReturns says when it does.
    constructor (probePeriods: seq<nat>, probeShapes: seq<Shape>, samples: nat -> Sample)
      requires Unsigned(probePeriods) && PeriodOf(probePeriods).Returns?
      requires |probePeriods| == |probeShapes| && AllFit(samples, probeShapes)
      ensures Valid() && periods == probePeriods && shapes == probeShapes && feed == samples
      ensures calls == [] && windows == 0
    {
      shapes, feed, calls, windows := probeShapes, samples, [], 0;
      periods := probePeriods;
      new;
      FindPeriods();
    }

    // The loop of the constructor.
    method FindPeriods()
      requires Unsigned(periods) && PeriodOf(periods).Returns?
      modifies this`periodicProbes, this`needThread, this`minPeriod
      ensures periodicProbes == Periodic(periods) && PeriodOf(periods) == Returns(minPeriod)
      ensures needThread <==> periodicProbes != []
    {
      periodicProbes, needThread, minPeriod := [], false, INT_MAX;
      var i := 0;
      while i < |periods|
        invariant i <= |periods|
        invariant periodicProbes == Periodic(periods[..i]) && Found(periods[..i]) == Returns(minPeriod)
        invariant needThread <==> periodicProbes != []
      {
        PeriodicStep(periods, i);
        FoundStep(periods, i, minPeriod);
        var period := periods[i];
        if period != 0 {
          periodicProbes := periodicProbes + [i];
          minPeriod := Take(minPeriod, period);
          needThread := true;
        }
        i := i + 1;
      }
      assert periods[..i] == periods;
      if minPeriod == INT_MAX {
        minPeriod := 0;
      }
    }

    method StartProbes()
      requires Valid()
      modifies this`calls, this`windows
      ensures Valid() && calls == old(calls) + [Start] && windows == old(windows) + 1
    {
      calls, windows := calls + [Start], windows + 1;
    }

    method CancelProbes()
      requires Valid()
      modifies this`calls
      ensures Valid() && calls == old(calls) + [Cancel]
    {
      calls := calls + [Cancel];
    }

    // stop: makes room when the store is full, copies every probe's array into the current
    // record and closes the record. The result is false when the copy would have been written
    // behind the end of the vector.
    method StopProbes(results: ExperimentationResults) returns (stored: bool)
      requires Valid() && results.Valid() && results.shapes == shapes && windows > 0
      modifies this`calls, results
      ensures Valid() && results.Valid() && calls == old(calls) + [Stop]
      ensures stored <==> HasRoom(old(results.View()), shapes)
      ensures !stored ==> results.View() == Roomy(old(results.View()), shapes)
      ensures stored ==> results.View() == Stopped(old(results.View()), shapes, feed(windows - 1))
    {
      calls := calls + [Stop];
      if results.IsFull() {
        results.Extend();
      }
      assert results.View() == Roomy(old(results.View()), shapes);
      if shapes != [] && results.IsFull() { return false; }
      stored := true;
      CopySample(results, feed(windows - 1));
      results.MeasurementDone();
    }

    // One completed sleep of the update thread.
    method Tick(elapsedTime: nat) returns (updated: seq<nat>)
      requires Valid()
      ensures updated == Updated(periods, Periodic(periods), elapsedTime)
    {
      updated := [];
      var i := 0;
      while i < |periodicProbes|
        invariant i <= |periodicProbes|
        invariant updated == Updated(periods, periodicProbes[..i], elapsedTime)
      {
        assert periodicProbes[..i + 1][..i] == periodicProbes[..i];
        var p := periodicProbes[i];
        if Due(periods[p], elapsedTime) {
          updated := updated + [p];
        }
        i := i + 1;
      }
      assert periodicProbes[..i] == periodicProbes;
    }

    // updateThread, for as long as it runs: sleeps[k] says whether sleep k completes.
    method UpdateThread(sleeps: seq<bool>) returns (updates: seq<seq<nat>>)
      requires Valid()
      ensures updates == Updates(minPeriod, periods, 0, sleeps)
    {
      var elapsedTime: nat := 0;
      updates := [];
      var i := 0;
      while i < |sleeps|
        invariant i <= |sleeps|
        invariant updates + Updates(minPeriod, periods, elapsedTime, sleeps[i..]) == Updates(minPeriod, periods, 0, sleeps)
      {
        UpdatesStep(minPeriod, periods, elapsedTime, sleeps, i);
        if sleeps[i] {
          elapsedTime := (elapsedTime + minPeriod) % WRAP;
          var updated := Tick(elapsedTime);
          Regroup(updates, updated, Updates(minPeriod, periods, elapsedTime, sleeps[i + 1..]));
          updates := updates + [updated];
        }
        i := i + 1;
      }
    }
  }
}
