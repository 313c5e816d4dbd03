// Progress of the kernel mode, and what the kill of the sync process decides.

module KernelProgress {
  import opened Counting
  import opened KernelRunner
  import opened KernelInvariant
  import opened KernelTheorems

  // A worker that can move without a token.
  predicate Free(x: Worker) { !x.pc.WaitGo? && !x.pc.WaitEnd? && !x.pc.Done? }

  // While the sync process gathers, a free worker can move, or one still behind the gate of
  // half round h - 1 finds a token there, or the sync process itself finds one.
  lemma GatheringStep(c: Config, s: State) returns (st: Step)
    requires Shape(c, s) && SemInv(s) && s.sync.alive && Gathering(s.sync)
    ensures Enabled(c, s, st) && (UnluckySoFar(c, s) ==> Unlucky(c, s, st))
  {
    var cs, h := Clocks(s.workers), Half(s.sync);
    if w: nat :| w < |s.workers| && Free(s.workers[w]) {
      st := WorkerStep(w, 0);
    } else if w: nat :| w < |s.workers| && Clock(s.workers[w]) == 2 * h - 1 {
      assert cs[w] < 2 * h;
      CountExtremes(cs, 2 * h);
      assert |OtherGate(s)| > 0;
      var tok :| tok in OtherGate(s);
      st := WorkerStep(w, tok);
    } else {
      forall w | 0 <= w < |cs| ensures cs[w] >= 2 * h + 1 { LastWaiters(c, s, w); }
      CountExtremes(cs, 2 * h + 1);
      assert |s.father| > 0;
      var tok :| tok in s.father;
      st := SyncStep(tok);
    }
  }

  lemma LastWaiters(c: Config, s: State, w: nat)
    requires Shape(c, s) && SemInv(s) && Gathering(s.sync) && s.sync.alive && w < |s.workers|
    requires forall v: nat :: v < |s.workers| ==>
               !Free(s.workers[v]) && Clock(s.workers[v]) != 2 * Half(s.sync) - 1
    ensures Clock(s.workers[w]) == 2 * Half(s.sync) + 1
  {
    CloseWorkers0(s, w, 0);
    assert WorkerOk(c, s, w) && WorkerOk(c, s, 0);
  }

  lemma CloseWorkers0(s: State, w: nat, v: nat)
    requires SemInv(s) && Gathering(s.sync) && w < |s.workers| && v < |s.workers|
    ensures 2 * Half(s.sync) - 1 <= Clock(s.workers[w]) <= 2 * Half(s.sync) + 1
    ensures 2 * Half(s.sync) - 1 <= Clock(s.workers[v]) <= 2 * Half(s.sync) + 1
  {
    var cs := Clocks(s.workers);
    assert cs[w] == Clock(s.workers[w]) && cs[v] == Clock(s.workers[v]);
  }

  /** Until worker 0 kills the sync process, some step is always possible. */
  lemma ProgressBeforeKill(c: Config, s: State)
    requires 1 <= c.nbProcess && Reachable(c, s) && s.sync.alive
    ensures !Stuck(c, s)
  {
    ReachableInv(c, s);
    if Gathering(s.sync) {
      var st := GatheringStep(c, s);
      assert Enabled(c, s, st);
    } else {
      assert Enabled(c, s, SyncStep(0));
    }
  }

  // End posts of the last round made by the sync process when it was killed.
  function EndPosts(c: Config, y: Sync): nat {
    if Gathering(y) then c.nbProcess else y.i
  }

  function DoneWorkers(ws: seq<Worker>): set<nat> {
    set w: nat | w < |ws| && ws[w].pc.Done?
  }

  lemma DoneAreReached(c: Config, s: State)
    requires Shape(c, s) && !s.sync.alive
    ensures DoneWorkers(s.workers) == Reached(Clocks(s.workers), 4 * c.Rounds())
  {
    forall w: nat | w < |s.workers|
      ensures s.workers[w].pc.Done? <==> Clocks(s.workers)[w] >= 4 * c.Rounds()
    {
      assert WorkerOk(c, s, w);
    }
  }

  lemma KilledHalf(c: Config, s: State)
    requires Shape(c, s) && SemInv(s) && !s.sync.alive
    ensures if Gathering(s.sync) then Half(s.sync) == 2 * c.Rounds() else Half(s.sync) == 2 * c.Rounds() - 1
  {
    assert WorkerOk(c, s, 0);
    assert Clocks(s.workers)[0] == 4 * c.Rounds();
  }

  // After the kill the remaining tokens and the finished workers add up to the posts made.
  lemma KilledCounts(c: Config, s: State)
    requires Shape(c, s) && SemInv(s) && !s.sync.alive
    ensures |s.processEnd| + |DoneWorkers(s.workers)| == EndPosts(c, s.sync)
    ensures 0 in DoneWorkers(s.workers)
    ensures Gathering(s.sync) ==> s.sync.i == 0 && s.father == s.process == multiset{}
  {
    KilledHalf(c, s);
    DoneAreReached(c, s);
    var cs := Clocks(s.workers);
    assert WorkerOk(c, s, 0);
    if Gathering(s.sync) {
      forall w | 0 <= w < |cs| ensures cs[w] <= 4 * c.Rounds() { assert WorkerOk(c, s, w); }
      CountExtremes(cs, 4 * c.Rounds() + 1);
    }
  }

  lemma DoneIsFinal(c: Config, s: State)
    requires Shape(c, s)
    ensures |DoneWorkers(s.workers)| <= c.nbProcess
    ensures Final(s) <==> |DoneWorkers(s.workers)| == c.nbProcess
  {
    var d := DoneWorkers(s.workers);
    SubsetSize(d, Below(c.nbProcess));
    if |d| == c.nbProcess {
      forall w | 0 <= w < |s.workers| ensures s.workers[w].pc.Done? { assert w in Below(c.nbProcess); }
    }
    if Final(s) { assert d == Below(c.nbProcess); }
  }

  lemma KilledWaiters(c: Config, s: State, w: nat)
    requires Shape(c, s) && SemInv(s) && !s.sync.alive && w < |s.workers|
    ensures s.workers[w].pc.Done? || s.workers[w].pc.WaitEnd?
  {
    KilledHalf(c, s);
    assert Clocks(s.workers)[w] == Clock(s.workers[w]);
    assert WorkerOk(c, s, w);
  }

  // After the kill nothing moves exactly when the end tokens are used up or everyone is done.
  lemma KilledStuck(c: Config, s: State)
    requires Shape(c, s) && SemInv(s) && !s.sync.alive
    ensures Stuck(c, s) <==> s.processEnd == multiset{} || Final(s)
  {
    if tok: nat, w: nat :| tok in s.processEnd && w < |s.workers| && !s.workers[w].pc.Done? {
      KilledWaiters(c, s, w);
      assert Enabled(c, s, WorkerStep(w, tok));
    } else {
      forall st: Step ensures !Enabled(c, s, st) {
        if st.WorkerStep? && st.w < |s.workers| { KilledWaiters(c, s, st.w); }
      }
    }
  }

  /** What the kill decides. Let p be the number of end posts of the last round that the sync
      process had made when worker 0 killed it (or N, if it had gone past them). Then p is at
      least 1, a state after the kill is stuck exactly when p workers are done, and the stuck
      state is the completed run exactly when p == N; a completed run leaves all semaphores
      at 0. With one process p is always N. */
  lemma KillOutcome(c: Config, s: State)
    requires 1 <= c.nbProcess && Reachable(c, s) && !s.sync.alive
    ensures 1 <= EndPosts(c, s.sync) <= c.nbProcess
    ensures Stuck(c, s) <==> |DoneWorkers(s.workers)| == EndPosts(c, s.sync)
    ensures Stuck(c, s) ==> (Final(s) <==> EndPosts(c, s.sync) == c.nbProcess)
    ensures Final(s) ==> s.father == s.process == s.processEnd == multiset{}
    ensures c.nbProcess == 1 ==> Final(s)
  {
    ReachableInv(c, s);
    KilledCounts(c, s);
    KilledStuck(c, s);
    DoneIsFinal(c, s);
    assert {0} <= DoneWorkers(s.workers);
    SubsetSize({0}, DoneWorkers(s.workers));
    if |s.processEnd| == 0 { assert s.processEnd == multiset{}; }
  }

  /** The outcome is settled at the moment of the kill: a run that goes on from there until
      nothing can move ends completed exactly when the sync process had made its N end posts. */
  lemma {:induction false} KillDecides(c: Config, s: State, st: seq<Step>)
    requires 1 <= c.nbProcess && Reachable(c, s) && !s.sync.alive
    requires Run(c, s, st) && Stuck(c, After(c, s, st))
    ensures Final(After(c, s, st)) <==> EndPosts(c, s.sync) == c.nbProcess
    decreases |st|
  {
    if st == [] {
      KillOutcome(c, s);
    } else {
      ReachableStep(c, s, st[0]);
      ReachableInv(c, s);
      assert st[0].WorkerStep? && WorkerOk(c, s, st[0].w) && WorkerOk(c, s, 0);
      KillDecides(c, Apply(c, s, st[0]), st[1..]);
    }
  }

  lemma {:induction false} RunSnoc(c: Config, s: State, st: seq<Step>, a: Step)
    requires Run(c, s, st) && Enabled(c, After(c, s, st), a)
    ensures Run(c, s, st + [a]) && After(c, s, st + [a]) == Apply(c, After(c, s, st), a)
    decreases |st|
  {
    if st == [] {
      assert (st + [a])[1..] == [];
    } else {
      assert (st + [a])[1..] == st[1..] + [a];
      RunSnoc(c, Apply(c, s, st[0]), st[1..], a);
    }
  }

  lemma ReachableStep(c: Config, s: State, a: Step)
    requires Reachable(c, s) && Enabled(c, s, a)
    ensures Reachable(c, Apply(c, s, a))
  {
    var st: seq<Step> :| Run(c, Init(c), st) && After(c, Init(c), st) == s;
    RunSnoc(c, Init(c), st, a);
  }

  // ---------- the failing family is not empty ----------

  // A schedule that starves the sync process after its first end post of the last round and
  // gives that post to worker 0.
  predicate Unlucky(c: Config, s: State, st: Step)
    requires Enabled(c, s, st)
  {
    match st
    case WorkerStep(w, _) => w != 0 ==> !(s.workers[w].pc.WaitEnd? && s.workers[w].round + 1 == c.Rounds())
    case SyncStep(_) => !(s.sync.pc.PostEnd? && s.sync.round + 1 == c.Rounds() && s.sync.i >= 1)
  }

  predicate UnluckySoFar(c: Config, s: State) {
    && Half(s.sync) < 2 * c.Rounds()
    && (Half(s.sync) == 2 * c.Rounds() - 1 && !Gathering(s.sync) ==> s.sync.i <= 1)
    && forall w :: 1 <= w < |s.workers| ==> !s.workers[w].pc.Done?
  }

  lemma UnluckyStaysSo(c: Config, s: State, st: Step)
    requires 2 <= c.nbProcess && Shape(c, s) && UnluckySoFar(c, s)
    requires Enabled(c, s, st) && Unlucky(c, s, st)
    ensures UnluckySoFar(c, Apply(c, s, st))
  {
    match st {
      case WorkerStep(w, tok) => assert WorkerOk(c, s, w);
      case SyncStep(_) => NextSyncHalf(c, s.sync);
    }
  }

  lemma NextSyncHalf(c: Config, y: Sync)
    requires y.i < c.nbProcess
    ensures var y' := NextSync(c, y);
            if y.i + 1 < c.nbProcess then Half(y') == Half(y) && Gathering(y') == Gathering(y) && y'.i == y.i + 1
            else y'.i == 0 && Gathering(y') == !Gathering(y)
                 && Half(y') == Half(y) + (if Gathering(y) then 0 else 1)
  {
  }

  lemma UnluckyRelease(c: Config, s: State) returns (st: Step)
    requires Shape(c, s) && SemInv(s) && s.sync.alive && !Gathering(s.sync) && UnluckySoFar(c, s)
    ensures Enabled(c, s, st) && Unlucky(c, s, st)
  {
    st := SyncStep(0);
    if !Unlucky(c, s, st) {
      assert WorkerOk(c, s, 0);
      if Free(s.workers[0]) {
        st := WorkerStep(0, 0);
      } else {
        var cs := Clocks(s.workers);
        assert cs[0] == Clock(s.workers[0]) == 4 * c.Rounds() - 1;
        forall w | 0 <= w < |cs| ensures cs[w] < 4 * c.Rounds() { assert WorkerOk(c, s, w); }
        CountExtremes(cs, 4 * c.Rounds());
        assert |s.processEnd| == 1;
        var tok :| tok in s.processEnd;
        st := WorkerStep(0, tok);
      }
    }
  }

  lemma {:induction false} UnluckyRun(c: Config, s: State) returns (t: State)
    requires 2 <= c.nbProcess && Reachable(c, s) && s.sync.alive && UnluckySoFar(c, s)
    ensures Reachable(c, t) && !t.sync.alive && EndPosts(c, t.sync) <= 1
    decreases WorkBound(c) - Work(c, s)
  {
    ReachableInv(c, s);
    var st: Step;
    if Gathering(s.sync) { st := GatheringStep(c, s); } else { st := UnluckyRelease(c, s); }
    var s' := Apply(c, s, st);
    ReachableStep(c, s, st);
    UnluckyStaysSo(c, s, st);
    StepWorks(c, s, st);
    ReachableInv(c, s');
    WorkBounded(c, s');
    if s'.sync.alive {
      t := UnluckyRun(c, s');
    } else {
      t := s';
      KilledHalf(c, s');
    }
  }

  /** With two or more processes and at least one repetition the bad case does happen: some
      interleaving ends with worker 0 finished, the sync process killed and every other worker
      waiting for ever. */
  lemma KillCanComeTooEarly(c: Config)
    requires 2 <= c.nbProcess && 1 <= c.nbMetaRepet
    ensures exists s :: Reachable(c, s) && Stuck(c, s) && !Final(s) && DoneWorkers(s.workers) == {0}
  {
    InitReachable(c);
    var t := UnluckyRun(c, Init(c));
    KilledAlone(c, t);
  }

  lemma InitReachable(c: Config)
    ensures Reachable(c, Init(c))
  {
    var st: seq<Step> := [];
    assert Run(c, Init(c), st) && After(c, Init(c), st) == Init(c);
  }

  lemma KilledAlone(c: Config, t: State)
    requires 2 <= c.nbProcess && Reachable(c, t) && !t.sync.alive && EndPosts(c, t.sync) <= 1
    ensures Stuck(c, t) && !Final(t) && DoneWorkers(t.workers) == {0}
  {
    ReachableInv(c, t);
    KilledCounts(c, t);
    KillOutcome(c, t);
    assert {0} <= DoneWorkers(t.workers);
    SubsetSize({0}, DoneWorkers(t.workers));
  }
}
