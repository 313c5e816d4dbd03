// The daemon mode of src/DaemonRunner.cpp: measurements opened and closed by signals. Time is
// cut into slices that hold the signals delivered meanwhile. A signal delivered while the
// daemon is not inside pause() only sets the flag; pause() returns in the first of its slices
// that holds a signal.

module DaemonRunner {
  import opened Collector
  import opened ProbeMatrix
  import opened ResultStore

  datatype Signal = Usr1 | Int | Term

  // sighandler: termination signals set the flag.
  predicate Ends(slice: seq<Signal>) {
    exists k :: 0 <= k < |slice| && (slice[k].Int? || slice[k].Term?)
  }

  // At the loop condition; behind it but not yet in the first pause(); in it; behind it and
  // starting the probes; in the second pause(); behind the loop; and behind a write outside
  // the vector of records, where the model ends.
  datatype Phase = Top | Going | Waiting | Opening | Measuring | Over | OutOfRange

  // turns counts the turns of the loop begun so far.
  datatype Daemon = Daemon(phase: Phase, end: bool, turns: nat, calls: seq<Call>, windows: nat, store: Store)

  // The probes the daemon runs with, and what they return.
  datatype World = World(shapes: seq<Shape>, feed: nat -> Sample)

  ghost predicate IsWorld(w: World) {
    AllFit(w.feed, w.shapes)
  }

  // The measurement started last.
  function Latest(d: Daemon): nat { if d.windows > 0 then d.windows - 1 else 0 }

  // The loop has been left.
  predicate Ended(phase: Phase) { phase.Over? || phase.OutOfRange? }

  // What the daemon does in one slice.
  ghost function Step(w: World, d: Daemon, slice: seq<Signal>): Daemon
    requires IsWorld(w)
  {
    var end := d.end || Ends(slice);
    match d.phase
    case Top =>
      if end then d.(phase := Over, end := end) else d.(phase := Going, turns := d.turns + 1)
    case Going => d.(phase := Waiting, end := end)
    case Waiting =>
      if slice == [] then d
      else if end then d.(phase := Over, end := end)
      else d.(phase := Opening, calls := d.calls + [Start], windows := d.windows + 1)
    case Opening => d.(phase := Measuring, end := end)
    case Measuring =>
      if slice == [] then d
      else if end then d.(phase := Top, end := end, calls := d.calls + [Cancel])
      else if !HasRoom(d.store, w.shapes) then
        d.(phase := OutOfRange, calls := d.calls + [Stop], store := Roomy(d.store, w.shapes))
      else
        d.(phase := Top, calls := d.calls + [Stop], store := Stopped(d.store, w.shapes, w.feed(Latest(d))))
    case _ => d
  }

  ghost function Run(w: World, d: Daemon, slices: seq<seq<Signal>>): Daemon
    requires IsWorld(w)
    decreases |slices|
  {
    if slices == [] then d else Run(w, Step(w, d, slices[0]), slices[1..])
  }

  lemma RunStep(w: World, d: Daemon, slices: seq<seq<Signal>>, pos: nat)
    requires IsWorld(w) && pos < |slices|
    ensures Run(w, d, slices[pos..]) == Run(w, Step(w, d, slices[pos]), slices[pos + 1..])
  {
    assert slices[pos..][0] == slices[pos] && slices[pos..][1..] == slices[pos + 1..];
  }

  lemma {:induction false} EndStays(w: World, d: Daemon, slices: seq<seq<Signal>>)
    requires IsWorld(w) && Ended(d.phase)
    ensures Run(w, d, slices) == d
    decreases |slices|
  {
    if slices != [] { EndStays(w, d, slices[1..]); }
  }

  // ---------- the loop of DaemonRunner::start ----------

  // How a turn of the loop leaves its body: the slices end inside a pause(), the break behind
  // the first pause(), the end of the body, or a write outside the vector.
  datatype Outcome = Blocked | Broke | Turned | Corrupted

  // How the run ends: the slices are used up, the method has returned, or a write outside the
  // vector.
  datatype Exit = Running | Returned | Undefined

  class Runner {
    const collector: ProbeDataCollector
    var end: bool
    var nbMetaRepet: nat

    constructor (pProbesDataCollector: ProbeDataCollector)
      ensures collector == pProbesDataCollector && !end && nbMetaRepet == 1
    {
      collector, end, nbMetaRepet := pProbesDataCollector, false, 1;
    }

    // Into pause() and out of it: the slice before it, and then slices until one holds a
    // signal. The result says whether there was one.
    method EnterPause(slices: seq<seq<Signal>>, pos: nat, ghost w: World, ghost d: Daemon)
      returns (woken: bool, next: nat, ghost d': Daemon)
      requires pos <= |slices| && IsWorld(w) && (d.phase.Going? || d.phase.Opening?) && end == d.end
      modifies this`end
      ensures pos <= next <= |slices| && (d' == d || d' == d.(phase := d'.phase, end := d'.end))
      ensures woken ==> pos < next && slices[next - 1] != [] && end == (d'.end || Ends(slices[next - 1]))
      ensures woken ==> d'.phase == if d.phase.Going? then Waiting else Measuring
      ensures woken ==> Run(w, d, slices[pos..]) == Run(w, Step(w, d', slices[next - 1]), slices[next..])
      ensures !woken ==> end == d'.end && !Ended(d'.phase) && Run(w, d, slices[pos..]) == d'
    {
      if pos == |slices| {
        assert slices[pos..] == [];
        return false, pos, d;
      }
      RunStep(w, d, slices, pos);
      end := end || Ends(slices[pos]);
      d' := Step(w, d, slices[pos]);
      woken, next := Pause(slices, pos + 1, w, d');
    }

    // pause(): slices pass until one holds a signal. The result says whether there was one.
    method Pause(slices: seq<seq<Signal>>, pos: nat, ghost w: World, ghost d: Daemon)
      returns (woken: bool, next: nat)
      requires pos <= |slices| && IsWorld(w) && (d.phase.Waiting? || d.phase.Measuring?)
      modifies this`end
      ensures pos <= next <= |slices|
      ensures woken ==> pos < next && slices[next - 1] != [] && end == (old(end) || Ends(slices[next - 1]))
      ensures woken ==> Run(w, d, slices[pos..]) == Run(w, Step(w, d, slices[next - 1]), slices[next..])
      ensures !woken ==> end == old(end) && Run(w, d, slices[pos..]) == d
    {
      next := pos;
      while next < |slices| && slices[next] == []
        invariant pos <= next <= |slices| && end == old(end)
        invariant Run(w, d, slices[pos..]) == Run(w, d, slices[next..])
      {
        RunStep(w, d, slices, next);
        next := next + 1;
      }
      if next == |slices| {
        assert slices[next..] == [];
        return false, next;
      }
      RunStep(w, d, slices, next);
      end := end || Ends(slices[next]);
      return true, next + 1;
    }

    // What the objects of a run hold is what d says.
    ghost predicate Shows(d: Daemon, results: ExperimentationResults)
      reads this, collector, results
    {
      && end == d.end && nbMetaRepet == (if d.turns == 0 then 1 else d.turns)
      && collector.calls == d.calls && collector.windows == d.windows && results.View() == d.store
    }

    ghost predicate Ready(w: World, results: ExperimentationResults)
      reads this, collector, results
    {
      && collector.Valid() && results.Valid() && IsWorld(w)
      && collector.shapes == w.shapes == results.shapes && collector.feed == w.feed
    }

    // The end of a measurement: cancelled when the flag is set, stored otherwise.
    method Finish(results: ExperimentationResults, slice: seq<Signal>, ghost w: World, ghost d: Daemon)
      returns (inRange: bool)
      requires Ready(w, results) && slice != [] && d.phase.Measuring? && d.windows > 0
      requires end == (d.end || Ends(slice)) && Shows(d.(end := end), results)
      modifies collector`calls, results
      ensures Ready(w, results) && Shows(Step(w, d, slice), results)
      ensures Step(w, d, slice).phase == if inRange then Top else OutOfRange
    {
      if end {
        collector.CancelProbes();
        inRange := true;
      } else {
        inRange := collector.StopProbes(results);
      }
    }

    // The loop body from the first pause() on.
    method Turn(results: ExperimentationResults, slices: seq<seq<Signal>>, pos: nat, ghost w: World, ghost d: Daemon)
      returns (outcome: Outcome, next: nat, ghost d': Daemon)
      requires pos <= |slices| && d.phase.Going? && Ready(w, results) && Shows(d, results)
      modifies this`end, collector`calls, collector`windows, results
      ensures pos <= next <= |slices| && d'.turns == d.turns && Ready(w, results) && Shows(d', results)
      ensures Run(w, d, slices[pos..]) == Run(w, d', slices[next..])
      ensures match outcome
              case Blocked => !Ended(d'.phase) && slices[next..] == []
              case Broke => d'.phase.Over?
              case Turned => d'.phase.Top?
              case Corrupted => d'.phase.OutOfRange?
    {
      var woken;
      woken, next, d' := EnterPause(slices, pos, w, d);
      if !woken { return Blocked, |slices|, d'; }
      d' := Step(w, d', slices[next - 1]);
      if end { return Broke, next, d'; }
      collector.StartProbes();
      woken, next, d' := EnterPause(slices, next, w, d');
      if !woken { return Blocked, |slices|, d'; }
      var inRange := Finish(results, slices[next - 1], w, d');
      d' := Step(w, d', slices[next - 1]);
      outcome := if inRange then Turned else Corrupted;
    }

    // What a run that ends this way leaves behind, when d is the state of the machine.
    ghost predicate Left(exit: Exit, d: Daemon, results: ExperimentationResults)
      reads this, collector, results
    {
      match exit
      case Running => !Ended(d.phase) && Shows(d, results)
      case Returned => d.phase.Over? && Shows(d.(end := false), results)
      case Undefined => d.phase.OutOfRange? && Shows(d, results)
    }

    // The loop of DaemonRunner::start.
    method Serve(results: ExperimentationResults, slices: seq<seq<Signal>>, ghost w: World, ghost d0: Daemon)
      returns (exit: Exit)
      requires Ready(w, results) && d0.phase.Top? && d0.turns == 0 && Shows(d0, results)
      modifies this`end, this`nbMetaRepet, collector`calls, collector`windows, results
      ensures Left(exit, Run(w, d0, slices), results)
    {
      var metaRepet, pos: nat := 0, 0;
      ghost var d := d0;
      assert slices[0..] == slices;
      while true
        invariant pos <= |slices| && metaRepet == d.turns && Ready(w, results) && Shows(d, results)
        invariant d.phase.Top? && Run(w, d, slices[pos..]) == Run(w, d0, slices)
        decreases |slices| - pos
      {
        // the loop condition
        if pos == |slices| { return Running; }
        RunStep(w, d, slices, pos);
        end := end || Ends(slices[pos]);
        d, pos := Step(w, d, slices[pos]), pos + 1;
        if end { break; }
        nbMetaRepet := metaRepet + 1;
        var outcome;
        outcome, pos, d := Turn(results, slices, pos, w, d);
        if outcome == Blocked { return Running; }
        if outcome == Broke { break; }
        if outcome == Corrupted {
          EndStays(w, d, slices[pos..]);
          return Undefined;
        }
        metaRepet := metaRepet + 1;
      }
      EndStays(w, d, slices[pos..]);
      end := false;
      return Returned;
    }

    /** DaemonRunner::start, for as long as the slices last: one overhead record, and then the
        calls, the flag and the store of the run of the state machine. A store without room
        for the overhead record ends the run at once. */
    method Start(overhead: ExperimentationResults, results: ExperimentationResults, slices: seq<seq<Signal>>,
                 ghost w: World)
      returns (exit: Exit)
      requires Ready(w, overhead) && Ready(w, results) && overhead != results && !end && nbMetaRepet == 1
      modifies this`end, this`nbMetaRepet, collector`calls, collector`windows, overhead, results
      ensures !HasRoom(old(overhead.View()), w.shapes) ==> exit == Undefined && results.View() == old(results.View())
      ensures HasRoom(old(overhead.View()), w.shapes) ==>
                overhead.View() == Stopped(old(overhead.View()), w.shapes, w.feed(old(collector.windows)))
      ensures HasRoom(old(overhead.View()), w.shapes) ==>
                Left(exit, Run(w, Daemon(Top, false, 0, old(collector.calls) + [Call.Start, Stop],
                                         old(collector.windows) + 1, old(results.View())), slices), results)
    {
      collector.StartProbes();
      var inRange := collector.StopProbes(overhead);
      if !inRange { return Undefined; }
      ghost var d0 := Daemon(Top, false, 0, old(collector.calls) + [Call.Start, Stop],
                             old(collector.windows) + 1, old(results.View()));
      assert collector.calls == d0.calls;
      exit := Serve(results, slices, w, d0);
    }
  }
}
