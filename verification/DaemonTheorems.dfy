// What the daemon guarantees over every sequence of signals.

module DaemonTheorems {
  import opened Collector
  import opened ProbeMatrix
  import opened ResultStore
  import opened DaemonRunner

  // ---------- whole runs ----------

  // n completed measurements.
  function Pairs(n: nat): seq<Call> {
    if n == 0 then [] else Pairs(n - 1) + [Call.Start, Stop]
  }

  function Fresh(w: World, cap: nat): Daemon {
    Daemon(Top, false, 0, [Call.Start, Stop], 1, Empty(cap, w.shapes))
  }

  // The calls after n stored measurements.
  ghost predicate CallsAt(d: Daemon, n: nat) {
    match d.phase
    case Top => d.calls == Pairs(n + 1) + (if d.end then [Call.Start, Cancel] else [])
                && d.windows == n + (if d.end then 2 else 1) && d.turns == n + (if d.end then 1 else 0)
    case Going => !d.end && d.calls == Pairs(n + 1) && d.windows == n + 1 == d.turns
    case Waiting => d.calls == Pairs(n + 1) && d.windows == n + 1 == d.turns
    case Opening => !d.end && d.calls == Pairs(n + 1) + [Call.Start] && d.windows == n + 2 == d.turns + 1
    case Measuring => d.calls == Pairs(n + 1) + [Call.Start] && d.windows == n + 2 == d.turns + 1
    case Over => d.end && (d.calls == Pairs(n + 1) || d.calls == Pairs(n + 1) + [Call.Start, Cancel])
                 && n <= d.turns <= n + 1
    case OutOfRange => false
  }

  // And the store: the overhead has used the first sample.
  ghost predicate StoreAt(w: World, cap: nat, store: Store, n: nat)
    requires IsWorld(w)
  {
    store == Stored(cap, w.shapes, w.feed, 1, n)
  }

  // This step stores a record.
  predicate Stores(d: Daemon, slice: seq<Signal>) {
    d.phase.Measuring? && slice != [] && !(d.end || Ends(slice))
  }

  lemma StepCalls(w: World, d: Daemon, slice: seq<Signal>, n: nat)
    requires IsWorld(w) && CallsAt(d, n) && HasRoom(d.store, w.shapes)
    ensures CallsAt(Step(w, d, slice), if Stores(d, slice) then n + 1 else n)
  {
    assert Pairs(n + 1) + [Call.Start] + [Cancel] == Pairs(n + 1) + [Call.Start, Cancel];
    assert Pairs(n + 1) + [Call.Start] + [Stop] == Pairs(n + 2);
    assert Pairs(n + 2) + [] == Pairs(n + 2);
  }

  lemma StepStore(w: World, cap: nat, d: Daemon, slice: seq<Signal>, n: nat)
    requires IsWorld(w) && CallsAt(d, n) && StoreAt(w, cap, d.store, n) && HasRoom(d.store, w.shapes)
    ensures StoreAt(w, cap, Step(w, d, slice).store, if Stores(d, slice) then n + 1 else n)
  {
  }

  lemma {:induction false} RunAt(w: World, cap: nat, d: Daemon, slices: seq<seq<Signal>>, n: nat) returns (m: nat)
    requires IsWorld(w) && cap > 0 && CallsAt(d, n) && StoreAt(w, cap, d.store, n)
    ensures var d' := Run(w, d, slices); CallsAt(d', m) && StoreAt(w, cap, d'.store, m)
    decreases |slices|
  {
    m := n;
    if slices != [] {
      RecordsAt(w, cap, d.store, n);
      StepCalls(w, d, slices[0], n);
      StepStore(w, cap, d, slices[0], n);
      m := RunAt(w, cap, Step(w, d, slices[0]), slices[1..], if Stores(d, slices[0]) then n + 1 else n);
    }
  }

  lemma RecordsAt(w: World, cap: nat, store: Store, n: nat)
    requires IsWorld(w) && cap > 0 && StoreAt(w, cap, store, n)
    ensures store.nb == n <= |store.results| && HasRoom(store, w.shapes)
    ensures forall k: nat :: k < n ==> store.results[k] == RecordOf(w.feed(k + 1), w.shapes)
  {
    StoredRecords(cap, w.shapes, w.feed, 1, n);
    RoomAfterDoubling(store, w.shapes);
    forall k: nat | k < n ensures store.results[k] == RecordOf(w.feed(k + 1), w.shapes) {
      assert w.feed(k + 1) == w.feed(1 + k);
    }
  }

  /** Over every sequence of signals, with n records stored: the calls of the collector are
      n + 1 completed measurements, the first of them the overhead, followed by at most one
      measurement that is open or, when the daemon is about to return, cancelled; record k is
      the sample of the k-th completed measurement after the overhead one; no record has been
      written outside the vector; and at most the last turn of the loop has stored none. */
  lemma DaemonTheorem(w: World, cap: nat, slices: seq<seq<Signal>>)
    requires IsWorld(w) && cap > 0
    ensures var d := Run(w, Fresh(w, cap), slices);
            var n := d.store.nb;
            && !d.phase.OutOfRange?
            && (|| d.calls == Pairs(n + 1)
                || ((d.phase.Opening? || d.phase.Measuring?) && d.calls == Pairs(n + 1) + [Call.Start])
                || (d.end && d.calls == Pairs(n + 1) + [Call.Start, Cancel]))
            && n <= |d.store.results| && n <= d.turns <= n + 1
            && forall k: nat :: k < n ==> d.store.results[k] == RecordOf(w.feed(k + 1), w.shapes)
  {
    assert Pairs(1) == [Call.Start, Stop];
    var n := RunAt(w, cap, Fresh(w, cap), slices, 0);
    RecordsAt(w, cap, Run(w, Fresh(w, cap), slices).store, n);
  }

  // ---------- capacity zero ----------

  lemma {:induction false} NoProbesNoWrite(w: World, d: Daemon, slices: seq<seq<Signal>>)
    requires IsWorld(w) && w.shapes == [] && !d.phase.OutOfRange?
    ensures !Run(w, d, slices).phase.OutOfRange?
    decreases |slices|
  {
    if slices != [] { NoProbesNoWrite(w, Step(w, d, slices[0]), slices[1..]); }
  }

  // From the loop condition through one whole measurement.
  lemma FirstStopFails(w: World, d: Daemon, usr: seq<Signal>)
    requires IsWorld(w) && d.phase.Top? && !d.end && usr == [Usr1] && !HasRoom(d.store, w.shapes)
    ensures Run(w, d, [[], [], usr, [], usr]).phase.OutOfRange?
  {
    var slices: seq<seq<Signal>> := [[], [], usr, [], usr];
    var d1 := Step(w, d, []);
    var d2 := Step(w, d1, []);
    var d3 := Step(w, d2, usr);
    var d4 := Step(w, d3, []);
    assert !Ends([]) && !Ends(usr) && slices[0..] == slices;
    RunStep(w, d, slices, 0);
    RunStep(w, d1, slices, 1);
    RunStep(w, d2, slices, 2);
    RunStep(w, d3, slices, 3);
    RunStep(w, d4, slices, 4);
    EndStays(w, Step(w, d4, usr), slices[5..]);
  }

  /** Some sequence of signals makes the daemon write outside its vector exactly when the
      vector was created empty and there is a probe. */
  lemma OutOfRangeIffEmpty(w: World, cap: nat)
    requires IsWorld(w)
    ensures (exists slices :: Run(w, Fresh(w, cap), slices).phase.OutOfRange?) <==> cap == 0 && w.shapes != []
  {
    if cap == 0 && w.shapes != [] {
      RoomAfterDoubling(Empty(cap, w.shapes), w.shapes);
      FirstStopFails(w, Fresh(w, cap), [Usr1]);
    } else {
      forall slices ensures !Run(w, Fresh(w, cap), slices).phase.OutOfRange? {
        if cap > 0 { DaemonTheorem(w, cap, slices); } else { NoProbesNoWrite(w, Fresh(w, cap), slices); }
      }
    }
  }

  // ---------- termination signals ----------

  predicate Quiet(slices: seq<seq<Signal>>) {
    forall k :: 0 <= k < |slices| ==> slices[k] == []
  }

  // SIGINT and SIGTERM end the daemon.
  lemma EndsMeans(slice: seq<Signal>)
    ensures Ends(slice) <==> Int in slice || Term in slice
  {
  }

  /** And nothing else does: over any slices without them the flag stays as it is, and a daemon
      that has not been told to end never leaves its loop. */
  lemma {:induction false} OtherSignalsDoNotEnd(w: World, d: Daemon, slices: seq<seq<Signal>>)
    requires IsWorld(w) && !d.end && !d.phase.Over?
    requires forall k :: 0 <= k < |slices| ==> Int !in slices[k] && Term !in slices[k]
    ensures !Run(w, d, slices).end && !Run(w, d, slices).phase.Over?
    decreases |slices|
  {
    if slices != [] {
      EndsMeans(slices[0]);
      OtherSignalsDoNotEnd(w, Step(w, d, slices[0]), slices[1..]);
    }
  }

  // Nobody is inside a pause().
  predicate BeforePause(phase: Phase) { phase.Going? || phase.Opening? }

  lemma {:induction false} QuietStays(w: World, d: Daemon, quiet: seq<seq<Signal>>)
    requires IsWorld(w) && (d.phase.Waiting? || d.phase.Measuring?) && Quiet(quiet)
    ensures Run(w, d, quiet) == d
    decreases |quiet|
  {
    if quiet != [] { QuietStays(w, d, quiet[1..]); }
  }

  lemma {:induction false} RunConcat(w: World, d: Daemon, a: seq<seq<Signal>>, b: seq<seq<Signal>>)
    requires IsWorld(w)
    ensures Run(w, d, a + b) == Run(w, Run(w, d, a), b)
    decreases |a|
  {
    if a == [] {
      assert a + b == b;
    } else {
      assert (a + b)[1..] == a[1..] + b;
      RunConcat(w, Step(w, d, a[0]), a[1..], b);
    }
  }

  /** When a termination signal ends the daemon: with no further signal the daemon returns,
      from any point of its loop, exactly when the signal does not fall between a look at the
      flag and the pause() behind it. */
  lemma TerminationIsSeen(w: World, d: Daemon, slice: seq<Signal>, quiet: seq<seq<Signal>>)
    requires IsWorld(w) && !Ended(d.phase) && !d.end && (Int in slice || Term in slice)
    requires quiet != [] && Quiet(quiet)
    ensures Run(w, Step(w, d, slice), quiet).phase.Over? <==> !BeforePause(d.phase)
  {
    EndsMeans(slice);
    var d1 := Step(w, d, slice);
    match d.phase {
      case Measuring => EndStays(w, Step(w, d1, quiet[0]), quiet[1..]);
      case Top => EndStays(w, d1, quiet);
      case Waiting => EndStays(w, d1, quiet);
      case _ => QuietStays(w, d1, quiet);
    }
  }

  /** And in the other case one further signal, whenever it comes, ends the daemon. */
  lemma NextSignalEnds(w: World, d: Daemon, slice: seq<Signal>, quiet: seq<seq<Signal>>,
                       signal: seq<Signal>, last: seq<Signal>)
    requires IsWorld(w) && BeforePause(d.phase) && (Int in slice || Term in slice) && Quiet(quiet) && signal != []
    ensures Run(w, Step(w, d, slice), quiet + [signal, last]).phase.Over?
  {
    EndsMeans(slice);
    var d1, next := Step(w, d, slice), [signal, last];
    QuietStays(w, d1, quiet);
    RunConcat(w, d1, quiet, next);
    assert next[0..] == next && next[2..] == [];
    RunStep(w, d1, next, 0);
    RunStep(w, Step(w, d1, signal), next, 1);
  }

  /** Both pauses have such a moment: from the loop condition the daemon gets into either pause
      with the flag set, and stays there for any number of further slices. */
  lemma TerminationCanWait(w: World, d: Daemon, term: seq<Signal>, quiet: seq<seq<Signal>>)
    requires IsWorld(w) && d.phase.Top? && !d.end && (Int in term || Term in term) && Quiet(quiet)
    ensures var d' := Run(w, d, [[], term] + quiet); d'.end && d'.phase.Waiting?
    ensures var d' := Run(w, d, [[], [], [Usr1], term] + quiet); d'.end && d'.phase.Measuring?
  {
    EndsMeans(term);
    assert !Ends([]) && !Ends([Usr1]);
    var d1 := Step(w, d, []);
    var a: seq<seq<Signal>> := [[], term];
    assert a[0..] == a && a[2..] == [];
    RunStep(w, d, a, 0);
    RunStep(w, d1, a, 1);
    RunConcat(w, d, a, quiet);
    QuietStays(w, Step(w, d1, term), quiet);
    var d2 := Step(w, d1, []);
    var d3 := Step(w, d2, [Usr1]);
    var b: seq<seq<Signal>> := [[], [], [Usr1], term];
    assert b[0..] == b && b[4..] == [];
    RunStep(w, d, b, 0);
    RunStep(w, d1, b, 1);
    RunStep(w, d2, b, 2);
    RunStep(w, d3, b, 3);
    RunConcat(w, d, b, quiet);
    QuietStays(w, Step(w, d3, term), quiet);
  }
}
