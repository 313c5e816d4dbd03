// Where the measurements of the two runners go: nbMetaRepet rounds of overhead into one store,
// nbMetaRepet measured rounds into the other, both created with nbMetaRepet places.

module RunnerStores {
  import opened ResultStore
  import opened ProbeMatrix
  import KernelRunner
  import KernelInvariant
  import KernelTheorems
  import ProgramRunner
  import ProgramHistory
  import ProgramTheorems

  datatype Stores = Stores(overhead: Store, results: Store)

  // A stop in round r: rounds below n are for the overhead.
  function StopInto(n: nat, s: Stores, shapes: seq<Shape>, r: nat, x: Sample): Stores
    requires Fits(x, shapes)
  {
    if r < n then s.(overhead := Stopped(s.overhead, shapes, x)) else s.(results := Stopped(s.results, shapes, x))
  }

  // The stops made in these rounds, when the k-th of them returns feed(k).
  ghost function StoresAfter(n: nat, shapes: seq<Shape>, feed: nat -> Sample, rounds: seq<nat>): Stores
    requires AllFit(feed, shapes)
  {
    if rounds == [] then Stores(Empty(n, shapes), Empty(n, shapes))
    else
      var k := |rounds| - 1;
      StopInto(n, StoresAfter(n, shapes, feed, rounds[..k]), shapes, rounds[k], feed(k))
  }

  function Least(m: nat, n: nat): nat { if m < n then m else n }

  // After m of the 2 * n stops: neither vector has grown, the first n samples are the overhead
  // records, in order, and the others are the result records.
  ghost predicate Filled(n: nat, shapes: seq<Shape>, feed: nat -> Sample, m: nat, s: Stores)
    requires AllFit(feed, shapes)
  {
    && |s.overhead.results| == |s.results.results| == n
    && s.overhead.nb == Least(m, n) && s.overhead.nb + s.results.nb == m <= 2 * n
    && (forall k :: 0 <= k < s.overhead.nb ==> s.overhead.results[k] == RecordOf(feed(k), shapes))
    && (forall k :: 0 <= k < s.results.nb ==> s.results.results[k] == RecordOf(feed(n + k), shapes))
  }

  function Upto(m: nat): seq<nat> { seq(m, k requires 0 <= k < m => k) }

  lemma {:induction false} SplitAtN(n: nat, shapes: seq<Shape>, feed: nat -> Sample, m: nat)
    requires AllFit(feed, shapes)
    ensures StoresAfter(n, shapes, feed, Upto(m)) == Halves(n, shapes, feed, m)
  {
    if m > 0 {
      assert Upto(m)[..m - 1] == Upto(m - 1);
      SplitAtN(n, shapes, feed, m - 1);
      NextHalves(n, shapes, feed, m - 1);
    }
  }

  // The first n samples in one store, the rest in the other.
  ghost function Halves(n: nat, shapes: seq<Shape>, feed: nat -> Sample, m: nat): Stores
    requires AllFit(feed, shapes)
  {
    Stores(Stored(n, shapes, feed, 0, Least(m, n)), Stored(n, shapes, feed, n, m - Least(m, n)))
  }

  lemma NextHalves(n: nat, shapes: seq<Shape>, feed: nat -> Sample, m: nat)
    requires AllFit(feed, shapes)
    ensures StopInto(n, Halves(n, shapes, feed, m), shapes, m, feed(m)) == Halves(n, shapes, feed, m + 1)
  {
    var k := Least(m, n);
    assert Least(m + 1, n) == if m < n then k + 1 else k;
    assert m + 1 - Least(m + 1, n) == if m < n then m - k else m - k + 1;
  }

  lemma UptoFills(n: nat, shapes: seq<Shape>, feed: nat -> Sample, m: nat)
    requires AllFit(feed, shapes) && m <= 2 * n
    ensures Filled(n, shapes, feed, m, StoresAfter(n, shapes, feed, Upto(m)))
  {
    SplitAtN(n, shapes, feed, m);
    StoredRecords(n, shapes, feed, 0, Least(m, n));
    StoredRecords(n, shapes, feed, n, m - Least(m, n));
  }

  // ---------- kernel mode ----------

  // The rounds of the probe stops, in order.
  function KernelStops(hist: seq<KernelRunner.Event>): seq<nat> {
    if hist == [] then []
    else
      var e := hist[|hist| - 1];
      KernelStops(hist[..|hist| - 1]) + (if e.Stopped? then [e.r] else [])
  }

  lemma KernelStopsSnoc(a: seq<KernelRunner.Event>, e: KernelRunner.Event)
    ensures KernelStops(a + [e]) == KernelStops(a) + (if e.Stopped? then [e.r] else [])
  {
    assert (a + [e])[..|a|] == a;
  }

  lemma {:induction false} KernelStopsConcat(a: seq<KernelRunner.Event>, b: seq<KernelRunner.Event>)
    ensures KernelStops(a + b) == KernelStops(a) + KernelStops(b)
    decreases |b|
  {
    if b == [] {
      assert a + b == a;
    } else {
      var n := |b| - 1;
      assert (a + b)[..|a| + n] == a + b[..n];
      KernelStopsConcat(a, b[..n]);
    }
  }

  // They are all calls of worker 0.
  lemma {:induction false} KernelStopsOfWorker0(hist: seq<KernelRunner.Event>)
    ensures KernelStops(KernelInvariant.Project(hist, 0)) == KernelStops(hist)
    decreases |hist|
  {
    if hist != [] {
      var n := |hist| - 1;
      var h, e := KernelInvariant.Project(hist[..n], 0), hist[n];
      KernelStopsOfWorker0(hist[..n]);
      KernelStopsSnoc(h, e);
      assert h + [] == h;
      assert KernelStops(h) + [] == KernelStops(h);
    }
  }

  lemma {:induction false} KernelStopsOfLog(r: nat)
    ensures KernelStops(KernelInvariant.Log(0, r)) == Upto(r)
  {
    if r > 0 {
      KernelStopsOfLog(r - 1);
      KernelStopsConcat(KernelInvariant.Log(0, r - 1), KernelInvariant.RoundLog(0, r - 1));
      RoundLogStops(r - 1);
    }
  }

  lemma RoundLogStops(r: nat)
    ensures KernelStops(KernelInvariant.RoundLog(0, r)) == [r]
  {
    var s, e, x, t := KernelRunner.Started(r), KernelRunner.Entered(0, r), KernelRunner.Exited(0, r),
                      KernelRunner.Stopped(r);
    assert KernelInvariant.RoundLog(0, r) == [s] + [e] + [x] + [t];
    KernelStopsSnoc([], s);
    KernelStopsSnoc([s], e);
    KernelStopsSnoc([s] + [e], x);
    KernelStopsSnoc([s] + [e] + [x], t);
  }

  // The stops of a history that lies between the logs of r and r + 1 rounds.
  lemma PartOfRound(h: seq<KernelRunner.Event>, r: nat)
    requires KernelInvariant.Log(0, r) <= h <= KernelInvariant.Log(0, r + 1)
    ensures KernelStops(h) == Upto(r) || KernelStops(h) == Upto(r + 1)
  {
    var log, more := KernelInvariant.Log(0, r), KernelInvariant.Log(0, r + 1);
    KernelStopsOfLog(r);
    KernelStopsOfLog(r + 1);
    KernelStopsPrefix(log, h);
    KernelStopsPrefix(h, more);
    BetweenUptos(KernelStops(h), r);
  }

  lemma KernelStopsPrefix(a: seq<KernelRunner.Event>, b: seq<KernelRunner.Event>)
    requires a <= b
    ensures KernelStops(a) <= KernelStops(b)
  {
    KernelStopsConcat(a, b[|a|..]);
    assert a + b[|a|..] == b;
  }

  lemma BetweenUptos(x: seq<nat>, r: nat)
    requires Upto(r) <= x <= Upto(r + 1)
    ensures x == Upto(r) || x == Upto(r + 1)
  {
  }

  /** Kernel mode, in every run and at every moment of it: the stops are those of rounds 0, 1,
      2, ...; neither store ever grows and each record is the sample of its round; when all
      workers are done, both stores are full. */
  lemma KernelStores(c: KernelRunner.Config, st: seq<KernelRunner.Step>, shapes: seq<Shape>, feed: nat -> Sample)
    requires 1 <= c.nbProcess && KernelRunner.Run(c, KernelRunner.Init(c), st) && AllFit(feed, shapes)
    ensures var s, n := KernelRunner.After(c, KernelRunner.Init(c), st), c.nbMetaRepet;
            var stops := KernelStops(s.hist);
            && stops == Upto(|stops|)
            && Filled(n, shapes, feed, |stops|, StoresAfter(n, shapes, feed, stops))
            && (KernelRunner.Final(s) ==> |stops| == 2 * n)
  {
    KernelTheorems.HistoryTheorem(c, st, 0);
    var s := KernelRunner.After(c, KernelRunner.Init(c), st);
    KernelStopsInOrder(c, s);
    UptoFills(c.nbMetaRepet, shapes, feed, |KernelStops(s.hist)|);
  }

  lemma KernelStopsInOrder(c: KernelRunner.Config, s: KernelRunner.State)
    requires KernelTheorems.CallsInOrder(c, s, 0)
    ensures var stops := KernelStops(s.hist);
            stops == Upto(|stops|) && |stops| <= c.Rounds() && (KernelRunner.Final(s) ==> |stops| == c.Rounds())
  {
    var h, r := KernelInvariant.Project(s.hist, 0), s.workers[0].round;
    KernelStopsOfWorker0(s.hist);
    if r < c.Rounds() { PartOfRound(h, r); } else { KernelStopsOfLog(r); }
  }

  // ---------- program mode ----------

  function ProgramStops(hist: seq<ProgramRunner.Event>): seq<nat> {
    if hist == [] then []
    else
      var e := hist[|hist| - 1];
      ProgramStops(hist[..|hist| - 1]) + (if e.Stopped? then [e.r] else [])
  }

  lemma ProgramStopsSnoc(a: seq<ProgramRunner.Event>, e: ProgramRunner.Event)
    ensures ProgramStops(a + [e]) == ProgramStops(a) + (if e.Stopped? then [e.r] else [])
  {
    assert (a + [e])[..|a|] == a;
  }

  // They are all calls of thread 0.
  lemma {:induction false} ProgramStopsOfMaster(hist: seq<ProgramRunner.Event>)
    ensures ProgramStops(ProgramHistory.Project(hist, -1)) == ProgramStops(hist)
    decreases |hist|
  {
    if hist != [] {
      var n := |hist| - 1;
      var h, e := ProgramHistory.Project(hist[..n], -1), hist[n];
      ProgramStopsOfMaster(hist[..n]);
      ProgramStopsSnoc(h, e);
      assert h + [] == h;
      assert ProgramStops(h) + [] == ProgramStops(h);
    }
  }

  lemma {:induction false} ProgramStopsOfLog(r: nat)
    ensures ProgramStops(ProgramHistory.ProbeLog(r)) == Upto(r)
  {
    if r > 0 {
      var log := ProgramHistory.ProbeLog(r - 1);
      var on, off := ProgramRunner.Started(r - 1), ProgramRunner.Stopped(r - 1);
      ProgramStopsOfLog(r - 1);
      ProgramStopsSnoc(log, on);
      ProgramStopsSnoc(log + [on], off);
      assert log + [on, off] == log + [on] + [off];
    }
  }

  lemma ProgramStopsInOrder(m: ProgramRunner.Master)
    ensures ProgramStops(ProgramHistory.ProbesSoFar(m)) == Upto(m.round)
  {
    var log := ProgramHistory.ProbeLog(m.round);
    ProgramStopsOfLog(m.round);
    ProgramStopsSnoc(log, ProgramRunner.Started(m.round));
    assert log + [] == log;
  }

  /** Program mode: the same, with thread 0's round as the number of stops. */
  lemma ProgramStores(c: ProgramRunner.Config, st: seq<ProgramRunner.Step>, shapes: seq<Shape>, feed: nat -> Sample)
    requires 1 <= c.nbProcess && ProgramRunner.Run(c, ProgramRunner.Init(c), st) && AllFit(feed, shapes)
    ensures var s, n := ProgramRunner.After(c, ProgramRunner.Init(c), st), c.nbMetaRepet;
            var stops := ProgramStops(s.hist);
            && stops == Upto(s.master.round)
            && Filled(n, shapes, feed, |stops|, StoresAfter(n, shapes, feed, stops))
            && (ProgramRunner.Final(c, s) ==> |stops| == 2 * n)
  {
    ProgramTheorems.ProjectionTheorem(c, st, 0);
    var s := ProgramRunner.After(c, ProgramRunner.Init(c), st);
    ProgramStopsOfMaster(s.hist);
    ProgramStopsInOrder(s.master);
    MasterInRange(c, st);
    UptoFills(c.nbMetaRepet, shapes, feed, s.master.round);
  }

  lemma MasterInRange(c: ProgramRunner.Config, st: seq<ProgramRunner.Step>)
    requires 1 <= c.nbProcess && ProgramRunner.Run(c, ProgramRunner.Init(c), st)
    ensures ProgramRunner.After(c, ProgramRunner.Init(c), st).master.round <= c.Rounds()
  {
    ProgramTheorems.InitInv(c);
    ProgramTheorems.RunKeepsInv(c, ProgramRunner.Init(c), st);
  }
}
