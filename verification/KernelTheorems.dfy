// Safety of the kernel mode over every run, and its termination.

module KernelTheorems {
  import opened Counting
  import opened KernelRunner
  import opened KernelInvariant

  /** Every step keeps the invariant. */
  lemma StepKeepsInv(c: Config, s: State, st: Step)
    requires Inv(c, s) && Enabled(c, s, st)
    ensures Inv(c, Apply(c, s, st))
  {
    match st {
      case WorkerStep(w, tok) =>
        assert WorkerOk(c, s, w);
        WorkerKeepsShape(c, s, w, tok);
        WorkerKeepsHist(c, s, w, tok);
        WorkerKeepsSems(c, s, w, tok);
      case SyncStep(tok) =>
        SyncKeepsShape(c, s, tok);
        SyncKeepsHist(c, s, tok);
        SyncKeepsSems(c, s, tok);
    }
  }

  /** Every interleaving from the initial state keeps the invariant. */
  lemma {:induction false} RunKeepsInv(c: Config, s: State, st: seq<Step>)
    requires Inv(c, s) && Run(c, s, st)
    ensures Inv(c, After(c, s, st))
    decreases |st|
  {
    if st != [] {
      StepKeepsInv(c, s, st[0]);
      RunKeepsInv(c, Apply(c, s, st[0]), st[1..]);
    }
  }

  ghost predicate Reachable(c: Config, s: State) {
    exists st: seq<Step> :: Run(c, Init(c), st) && After(c, Init(c), st) == s
  }

  lemma ReachableInv(c: Config, s: State)
    requires 1 <= c.nbProcess && Reachable(c, s)
    ensures Inv(c, s)
  {
    var st: seq<Step> :| Run(c, Init(c), st) && After(c, Init(c), st) == s;
    InitInv(c);
    RunKeepsInv(c, Init(c), st);
  }

  // ---------- safety ----------

  // Past the gate of the round and not yet finished with it: the probes of worker 0 and
  // every kernel call lie in this stretch.
  predicate InRound(x: Worker) {
    x.pc.ProbesStart? || x.pc.CallKernel? || x.pc.InKernel? || x.pc.ProbesStop? || x.pc.PostDone?
  }

  // A worker in its round has an even clock; nobody is more than one operation away from it.
  lemma CloseWorkers(c: Config, s: State, w: nat, v: nat)
    requires Inv(c, s) && w < c.nbProcess && v < c.nbProcess && InRound(s.workers[w])
    ensures WorkerOk(c, s, v) && WorkerOk(c, s, w)
    ensures Clock(s.workers[w]) - 1 <= Clock(s.workers[v]) <= Clock(s.workers[w]) + 1
  {
    var cs := Clocks(s.workers);
    assert cs[v] == Clock(s.workers[v]) && cs[w] == Clock(s.workers[w]);
  }

  lemma SameRound(x: Worker, y: Worker)
    requires InRound(x) && Clock(x) - 1 <= Clock(y) <= Clock(x) + 1
    ensures y.round == x.round && !y.pc.PostReady?
  {
  }

  lemma ExclusionFromInv(c: Config, s: State, w: nat, v: nat)
    requires Inv(c, s) && w < c.nbProcess && v < c.nbProcess
    requires InRound(s.workers[w])
    ensures s.workers[v].round == s.workers[w].round && !s.workers[v].pc.PostReady?
  {
    CloseWorkers(c, s, w, v);
    SameRound(s.workers[w], s.workers[v]);
  }

  /** While worker w is in round r, that is anywhere between its probe start (worker 0), its
      kernel call and its probe stop (worker 0), every worker v has arrived at round r (its
      "ready" token is posted) and none has left it. So kernels of different rounds never
      overlap, and the probe window of round r never overlaps a kernel of another round. */
  lemma KernelExclusion(c: Config, s: State, w: nat, v: nat)
    requires 1 <= c.nbProcess && Reachable(c, s)
    requires w < |s.workers| && v < |s.workers| && InRound(s.workers[w])
    ensures s.workers[v].round == s.workers[w].round && !s.workers[v].pc.PostReady?
  {
    ReachableInv(c, s);
    ExclusionFromInv(c, s, w, v);
  }

  /** No token is stolen: whoever waits takes a token of its own half round, in every
      reachable state and whatever token the semaphore hands out. */
  lemma NoStolenToken(c: Config, s: State, st: Step)
    requires 1 <= c.nbProcess && Reachable(c, s) && Enabled(c, s, st)
    ensures match st
            case WorkerStep(w, tok) =>
              && (s.workers[w].pc.WaitGo? ==> tok == 2 * s.workers[w].round)
              && (s.workers[w].pc.WaitEnd? ==> tok == 2 * s.workers[w].round + 1)
            case SyncStep(tok) =>
              && (s.sync.pc.GatherReady? ==> tok == 2 * s.sync.round)
              && (s.sync.pc.GatherDone? ==> tok == 2 * s.sync.round + 1)
  {
    ReachableInv(c, s);
    match st {
      case WorkerStep(w, tok) =>
        WaitKind(c, s, w, tok);
        var s' := WorkerApply(c, s, w, tok);
        if s.workers[w].pc.WaitGo? { WaitGoKeepsSems(s, s', w, s.workers[w].round, tok); }
        if s.workers[w].pc.WaitEnd? { WaitEndKeepsSems(s, s', w, s.workers[w].round, tok); }
      case SyncStep(tok) =>
        SyncKeepsSems(c, s, tok);
    }
  }

  // The calls are sorted by round, and those of worker w are the log of the rounds it has done
  // and a part of the log of its present one; after its last round they are the whole log.
  predicate CallsInOrder(c: Config, s: State, w: nat) {
    && SortedByRound(s.hist)
    && w < |s.workers| == c.nbProcess && s.workers[w].round <= c.Rounds()
    && Log(w, s.workers[w].round) <= Project(s.hist, w)
    && (s.workers[w].round < c.Rounds() ==> Project(s.hist, w) <= Log(w, s.workers[w].round + 1))
    && (s.workers[w].round == c.Rounds() ==> Project(s.hist, w) == Log(w, c.Rounds()))
    && (Final(s) ==> s.workers[w].round == c.Rounds())
  }

  lemma HistoryFromInv(c: Config, s: State, w: nat)
    requires Inv(c, s) && w < c.nbProcess
    ensures CallsInOrder(c, s, w)
  {
    assert LogOk(s, w) && WorkerOk(c, s, w);
    var log := RoundLog(w, s.workers[w].round);
    assert log[..LogPosition(w, s.workers[w].pc)] <= log;
  }

  /** Whole runs: the kernel calls and probe calls of all threads are ordered by round, and
      each worker's own calls are exactly start, enter, exit, stop (worker 0) or enter, exit
      for rounds 0, 1, 2, ... so far. */
  lemma HistoryTheorem(c: Config, st: seq<Step>, w: nat)
    requires 1 <= c.nbProcess && w < c.nbProcess && Run(c, Init(c), st)
    ensures CallsInOrder(c, After(c, Init(c), st), w)
  {
    InitInv(c);
    RunKeepsInv(c, Init(c), st);
    HistoryFromInv(c, After(c, Init(c), st), w);
  }

  // ---------- progress ----------

  // All the work a state has behind it, counted in operations.
  function PcIndex(x: Worker): int {
    8 * x.round +
    (match x.pc
     case PostReady => 0
     case WaitGo => 1
     case ProbesStart => 2
     case CallKernel => 3
     case InKernel => 4
     case ProbesStop => 5
     case PostDone => 6
     case WaitEnd => 7
     case Kill => 0
     case Done => 1)
  }

  function PcIndices(ws: seq<Worker>): seq<int> {
    seq(|ws|, w requires 0 <= w < |ws| => PcIndex(ws[w]))
  }

  function SyncIndex(c: Config, y: Sync): int {
    c.nbProcess * (2 * Half(y) + (if Gathering(y) then 0 else 1)) + y.i
  }

  ghost function Work(c: Config, s: State): int {
    SyncIndex(c, s.sync) + Sum(PcIndices(s.workers))
  }

  function WorkBound(c: Config): int {
    c.nbProcess * (4 * c.Rounds()) + c.nbProcess * (8 * c.Rounds() + 1)
  }

  lemma StepWorks(c: Config, s: State, st: Step)
    requires Shape(c, s) && Enabled(c, s, st)
    ensures Work(c, Apply(c, s, st)) > Work(c, s)
  {
    match st {
      case WorkerStep(w, tok) =>
        var x' := NextWorker(c, w, s.workers[w]);
        assert PcIndex(x') > PcIndex(s.workers[w]) by { assert WorkerOk(c, s, w); }
        assert PcIndices(s.workers[w := x']) == PcIndices(s.workers)[w := PcIndex(x')];
        SumUpdate(PcIndices(s.workers), w, PcIndex(x'));
      case SyncStep(tok) =>
        SyncWorks(c, s.sync);
    }
  }

  lemma SyncWorks(c: Config, y: Sync)
    requires y.i < c.nbProcess
    ensures SyncIndex(c, NextSync(c, y)) == SyncIndex(c, y) + 1
  {
    var y' := NextSync(c, y);
    var p := 2 * Half(y) + (if Gathering(y) then 0 else 1);
    if y.i + 1 >= c.nbProcess {
      assert 2 * Half(y') + (if Gathering(y') then 0 else 1) == p + 1;
      assert c.nbProcess * (p + 1) == c.nbProcess * p + c.nbProcess;
    }
  }

  // No round begins after the last one.
  lemma SyncBounded(c: Config, s: State)
    requires Inv(c, s)
    ensures var y := s.sync;
            var p := 2 * Half(y) + (if Gathering(y) then 0 else 1);
            p < 4 * c.Rounds() || (p == 4 * c.Rounds() && y.i == 0)
  {
    var y, cs := s.sync, Clocks(s.workers);
    forall w | 0 <= w < |cs| ensures cs[w] <= 4 * c.Rounds() {
      assert WorkerOk(c, s, w);
    }
    assert cs[0] <= 4 * c.Rounds();
    if Half(y) == 2 * c.Rounds() {
      CountExtremes(cs, 4 * c.Rounds() + 1);
    }
  }

  lemma WorkersBounded(c: Config, s: State)
    requires Shape(c, s)
    ensures Sum(PcIndices(s.workers)) <= c.nbProcess * (8 * c.Rounds() + 1)
  {
    forall w | 0 <= w < |s.workers| ensures PcIndices(s.workers)[w] <= 8 * c.Rounds() + 1 {
      assert WorkerOk(c, s, w);
    }
    SumBound(PcIndices(s.workers), 8 * c.Rounds() + 1);
  }

  lemma WorkBounded(c: Config, s: State)
    requires Inv(c, s)
    ensures Work(c, s) <= WorkBound(c)
  {
    WorkersBounded(c, s);
    SyncBounded(c, s);
    SyncIndexBound(c, s.sync);
  }

  lemma SyncIndexBound(c: Config, y: Sync)
    requires y.i < c.nbProcess
    requires var p := 2 * Half(y) + (if Gathering(y) then 0 else 1);
             p < 4 * c.Rounds() || (p == 4 * c.Rounds() && y.i == 0)
    ensures SyncIndex(c, y) <= c.nbProcess * (4 * c.Rounds())
  {
    var p := 2 * Half(y) + (if Gathering(y) then 0 else 1);
    LexBound(c.nbProcess, p, 4 * c.Rounds(), y.i);
  }

  lemma LexBound(n: int, p: int, q: int, i: int)
    requires 0 <= i < n && (p < q || (p == q && i == 0))
    ensures n * p + i <= n * q
  {
    if p < q {
      var d := q - p;
      assert n * d >= n by { assert n * (d - 1) >= 0; }
      assert n * q == n * p + n * d;
    }
  }

  /** Every interleaving is finite: its length is at most a fixed bound. */
  lemma {:induction false} RunsAreFinite(c: Config, s: State, st: seq<Step>)
    requires Inv(c, s) && Run(c, s, st)
    ensures |st| <= WorkBound(c) - Work(c, s)
    decreases |st|
  {
    if st == [] {
      WorkBounded(c, s);
    } else {
      StepWorks(c, s, st[0]);
      StepKeepsInv(c, s, st[0]);
      RunsAreFinite(c, Apply(c, s, st[0]), st[1..]);
    }
  }
}
