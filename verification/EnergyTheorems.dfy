// What the energy server and its client guarantee over every run.

module EnergyTheorems {
  import opened Arithmetic
  import opened EnergyMsr
  import opened EnergyServer
  import opened EnergyInvariant

  /** Rendezvous safety, for every interleaving with any timeouts and signals: the measure
      tokens, the request in service and the read tokens add up to one while the client waits
      and to zero otherwise; the k-th answer the client takes is the k-th window measured; and
      the server never writes the shared energies while the client copies them. */
  lemma Rendezvous(t0: seq<nat>, raws: seq<nat>, st: seq<Step>)
    requires Shown(raws, t0) && Run(Boot(t0, raws), st)
    ensures var s := After(Boot(t0, raws), st);
            && s.measure + One(InService(s)) + s.read == One(ClientWaits(s))
            && |s.log| == s.answers + s.read + One(Logged(s))
            && !(s.cpc.CopyOut? && s.spc.Copying?)
  {
    BootInv(t0, raws);
    RunKeepsInv(Boot(t0, raws), t0, st);
  }

  /** What a client gets: a start/stop pair returns for every socket exactly the energy of one
      window measured by the server, the one of the answer its stop took, and that window lies
      between the call of start and the return from stop; so the result is at least 0 and at
      most the true energy of that time. */
  lemma ClientGetsItsEnergy(t0: seq<nat>, raws: seq<nat>, st: seq<Step>, j: nat, k: nat)
    requires Shown(raws, t0) && Run(Boot(t0, raws), st)
    requires j < |After(Boot(t0, raws), st).outcomes| && k < |t0|
    ensures var s, o := After(Boot(t0, raws), st), After(Boot(t0, raws), st).outcomes[j];
            && 0 <= o.answer < |s.log| && o.res == s.log[o.answer].sent
            && |o.res| == |o.called| == |o.returned| == |t0|
            && AllAtLeast(s.log[o.answer].from, o.called) && AllAtLeast(o.returned, s.log[o.answer].upto)
            && 0 <= o.res[k] && o.called[k] + o.res[k] <= o.returned[k]
  {
    BootInv(t0, raws);
    RunKeepsInv(Boot(t0, raws), t0, st);
    OutcomeFromInv(After(Boot(t0, raws), st), t0, j, k);
  }

  lemma OutcomeFromInv(s: State, t0: seq<nat>, j: nat, k: nat)
    requires Inv(s, t0) && j < |s.outcomes| && k < |t0|
    ensures var o := s.outcomes[j];
            && 0 <= o.answer < |s.log| && o.res == s.log[o.answer].sent
            && |o.res| == |o.called| == |o.returned| == |t0|
            && AllAtLeast(s.log[o.answer].from, o.called) && AllAtLeast(o.returned, s.log[o.answer].upto)
            && 0 <= o.res[k] && o.called[k] + o.res[k] <= o.returned[k]
  {
    var o := s.outcomes[j];
    assert OutcomeOk(o, s.log);
    assert WindowOk(s.log[o.answer], |s.now|);
    assert s.log[o.answer].from[k] >= o.called[k] && o.returned[k] >= s.log[o.answer].upto[k];
  }

  // Energy sent in the windows, and energy that passed between them, for socket k.
  function TotalSent(log: seq<Window>, n: nat, k: nat): int
    requires k < n && forall j :: 0 <= j < |log| ==> WindowOk(log[j], n)
  {
    if log == [] then 0
    else
      assert WindowOk(log[|log| - 1], n);
      TotalSent(log[..|log| - 1], n, k) + log[|log| - 1].sent[k]
  }

  function TotalGaps(log: seq<Window>, n: nat, k: nat): int
    requires k < n && forall j :: 0 <= j < |log| ==> WindowOk(log[j], n)
  {
    if |log| <= 1 then 0
    else
      assert WindowOk(log[|log| - 1], n) && WindowOk(log[|log| - 2], n);
      TotalGaps(log[..|log| - 1], n, k) + log[|log| - 1].from[k] - log[|log| - 2].upto[k]
  }

  lemma {:induction false} Telescope(log: seq<Window>, n: nat, k: nat)
    requires k < n && log != [] && forall j :: 0 <= j < |log| ==> WindowOk(log[j], n)
    ensures WindowOk(log[0], n) && WindowOk(log[|log| - 1], n)
    ensures log[0].from[k] + TotalSent(log, n, k) + TotalGaps(log, n, k) == log[|log| - 1].upto[k]
  {
    var rest := log[..|log| - 1];
    if rest == [] {
    } else {
      Telescope(rest, n, k);
      assert rest[|rest| - 1] == log[|log| - 2] && rest[0] == log[0];
    }
  }

  lemma {:induction false} GapsAreGaps(log: seq<Window>, n: nat, k: nat)
    requires k < n && forall j :: 0 <= j < |log| ==> WindowOk(log[j], n)
    requires forall j :: 0 < j < |log| ==> AllAtLeast(log[j].from, log[j - 1].upto)
    ensures TotalGaps(log, n, k) >= 0
  {
    if |log| > 1 {
      GapsAreGaps(log[..|log| - 1], n, k);
    }
  }

  /** Energy conservation over any run: for every socket, all energy sent in replies plus the
      energy that passed between a stop and the next start is the true energy from the first
      start to the last stop; nothing is counted twice. */
  lemma EnergyConservation(t0: seq<nat>, raws: seq<nat>, st: seq<Step>, k: nat)
    requires Shown(raws, t0) && Run(Boot(t0, raws), st)
    requires k < |t0| && After(Boot(t0, raws), st).log != []
    ensures var log := After(Boot(t0, raws), st).log;
            && (forall j :: 0 <= j < |log| ==> WindowOk(log[j], |t0|))
            && t0[k] + TotalSent(log, |t0|, k) + TotalGaps(log, |t0|, k) == log[|log| - 1].upto[k]
            && TotalGaps(log, |t0|, k) >= 0
  {
    BootInv(t0, raws);
    RunKeepsInv(Boot(t0, raws), t0, st);
    var log := After(Boot(t0, raws), st).log;
    Telescope(log, |t0|, k);
    GapsAreGaps(log, |t0|, k);
  }

  // Server steps still needed before the waiting client's answer is posted.
  function Distance(s: State): nat {
    match s.spc
    case PostRead => 1
    case Copying => if s.si <= |s.energy| then 2 + |s.energy| - s.si else 2
    case Stopping => 3 + |s.energy|
    case Waiting => 4 + |s.energy|
    case Top => 5 + |s.energy|
    case Updating => 6 + |s.energy|
    case Restarting => 6 + |s.energy|
    case Exited => 0
  }

  lemma AnswerComesFromInv(s: State, t0: seq<nat>, w: WaitResult, raws: seq<nat>)
    requires Inv(s, t0) && ClientWaits(s) && s.read == 0 && !s.wantsStop && !s.spc.Exited?
    requires Enabled(s, Server(w, raws))
    ensures Distance(ServerApply(s, w, raws)) < Distance(s) || ServerApply(s, w, raws).read == 1
  {
  }

  /** A waiting client is answered: as long as the server has not been told to stop, the
      server can always move, and each of its moves brings the answer nearer. */
  lemma AnswerComes(t0: seq<nat>, raws: seq<nat>, st: seq<Step>, w: WaitResult, now: seq<nat>)
    requires Shown(raws, t0) && Run(Boot(t0, raws), st)
    requires var s := After(Boot(t0, raws), st);
             ClientWaits(s) && s.read == 0 && !s.wantsStop && !s.spc.Exited?
    ensures var s := After(Boot(t0, raws), st);
            && Enabled(s, Server(Taken, s.now))
            && (Enabled(s, Server(w, now)) ==>
                  Distance(Apply(s, Server(w, now))) < Distance(s) || Apply(s, Server(w, now)).read == 1)
  {
    BootInv(t0, raws);
    RunKeepsInv(Boot(t0, raws), t0, st);
    var s := After(Boot(t0, raws), st);
    if Enabled(s, Server(w, now)) { AnswerComesFromInv(s, t0, w, now); }
  }

  // ---------- timeouts and signals ----------

  // The server is back at the top of its loop and its counters are those of this moment.
  predicate JustRead(s: State)
    requires Sized(s)
  {
    s.spc.Top? && s.last == s.now && forall k :: 0 <= k < |s.now| ==> s.msr[k].last == s.now[k] % WORD
  }

  lemma {:induction false} UpdatingReads(s: State, more: seq<Step>) returns (n: nat)
    requires Sized(s) && s.spc.Updating? && Run(s, more) && !After(s, more).spc.Updating?
    ensures n <= |more| && Run(s, more[..n]) && JustRead(After(s, more[..n]))
    decreases |more|
  {
    var s' := Apply(s, more[0]);
    if more[0].Server? {
      n := 1;
      assert more[..1] == [more[0]] && more[..1][1..] == [];
      assert Run(s', more[..1][1..]) && After(s, more[..1]) == s';
    } else {
      var m := UpdatingReads(s', more[1..]);
      n := m + 1;
      assert more[..n][0] == more[0] && more[..n][1..] == more[1..][..m];
    }
  }

  /** A timeout is followed by a read of all counters before the server waits again, looks at
      its flag or takes a request: on the way there is a moment at the top of the loop at which
      every counter shows the register of that moment. */
  lemma TimeoutReads(s: State, raws: seq<nat>, more: seq<Step>) returns (n: nat)
    requires Sized(s) && s.spc.Waiting? && Enabled(s, Server(TimedOut, raws))
    requires var s' := Apply(s, Server(TimedOut, raws)); Run(s', more) && !After(s', more).spc.Updating?
    ensures var s' := Apply(s, Server(TimedOut, raws));
            n <= |more| && Run(s', more[..n]) && JustRead(After(s', more[..n]))
  {
    n := UpdatingReads(Apply(s, Server(TimedOut, raws)), more);
  }

  // Server steps still needed before it exits, once it has been told to.
  function ExitDistance(s: State): nat {
    match s.spc
    case Exited => 0
    case Top => 1
    case Updating => 2
    case Restarting => 2
    case PostRead => 3
    case Copying => if s.si <= |s.energy| then 4 + |s.energy| - s.si else 4
    case Stopping => 5 + |s.energy|
    case Waiting => 6 + |s.energy|
  }

  /** A signal ends the server: once it has been told to stop it can always move, every move it
      makes brings the exit nearer, whether it is interrupted, times out or serves the one
      request it finds, and it never waits again. */
  lemma SignalEndsServer(t0: seq<nat>, raws: seq<nat>, st: seq<Step>, w: WaitResult, now: seq<nat>)
    requires Shown(raws, t0) && Run(Boot(t0, raws), st)
    requires var s := After(Boot(t0, raws), st); s.wantsStop && !s.spc.Exited?
    ensures var s := After(Boot(t0, raws), st);
            && Enabled(s, Server(Interrupted, s.now))
            && (Enabled(s, Server(w, now)) ==>
                  var s' := Apply(s, Server(w, now));
                  ExitDistance(s') < ExitDistance(s) && s'.wantsStop && !s'.spc.Waiting?)
  {
    BootInv(t0, raws);
    RunKeepsInv(Boot(t0, raws), t0, st);
  }

  // ---------- the server exits with a request outstanding ----------

  // The client waits, and no continuation of the run ever moves it.
  ghost predicate Lost(s: State)
    requires Sized(s)
  {
    ClientWaits(s) && forall more: seq<Step> :: Run(s, more) ==> After(s, more).cpc == s.cpc
  }

  lemma {:induction false} StrandedStays(s: State, more: seq<Step>)
    requires Sized(s) && s.spc.Exited? && ClientWaits(s) && s.read == 0 && Run(s, more)
    ensures After(s, more).cpc == s.cpc
    decreases |more|
  {
    if more != [] {
      assert !more[0].Client? && !more[0].Server?;
      StrandedStays(Apply(s, more[0]), more[1..]);
    }
  }

  // Where the client waits for an answer that is there, it can move.
  lemma AnsweredMoves(s: State)
    requires Sized(s) && ClientWaits(s) && s.read > 0
    ensures !Lost(s)
  {
    var more := [Client];
    assert more[1..] == [] && Enabled(s, Client);
    assert Run(Apply(s, Client), more[1..]);
    assert Run(s, more) && After(s, more) == After(Apply(s, Client), more[1..]) == Apply(s, Client);
  }

  lemma ExitedLost(s: State, t0: seq<nat>)
    requires Inv(s, t0) && s.spc.Exited?
    ensures Lost(s) <==> s.measure == 1
    ensures ClientWaits(s) && s.read == 0 <==> s.measure == 1
  {
    if ClientWaits(s) {
      if s.read == 0 {
        forall more: seq<Step> | Run(s, more) ensures After(s, more).cpc == s.cpc { StrandedStays(s, more); }
      } else {
        AnsweredMoves(s);
      }
    }
  }

  /** After the server has exited, in every run: the client is lost, that is it waits and no
      continuation ever moves it, exactly when its request is still in the semaphore. */
  lemma ExitStrandsClient(t0: seq<nat>, raws: seq<nat>, st: seq<Step>)
    requires Shown(raws, t0) && Run(Boot(t0, raws), st) && After(Boot(t0, raws), st).spc.Exited?
    ensures var s := After(Boot(t0, raws), st);
            && (Lost(s) <==> s.measure == 1)
            && (ClientWaits(s) && s.read == 0 <==> s.measure == 1)
  {
    BootInv(t0, raws);
    RunKeepsInv(Boot(t0, raws), t0, st);
    ExitedLost(After(Boot(t0, raws), st), t0);
  }

  /** The guard that fails: when the server looks at its flag and finds it set, it exits, and
      this loses the client exactly when a request is in the semaphore at that moment. */
  lemma ExitLosesRequest(t0: seq<nat>, raws: seq<nat>, st: seq<Step>, w: WaitResult, now: seq<nat>)
    requires Shown(raws, t0) && Run(Boot(t0, raws), st)
    requires var s := After(Boot(t0, raws), st); s.spc.Top? && s.wantsStop && Enabled(s, Server(w, now))
    ensures var s := After(Boot(t0, raws), st);
            var s' := Apply(s, Server(w, now));
            s'.spc.Exited? && s'.cpc == s.cpc && (Lost(s') <==> s.measure == 1)
  {
    BootInv(t0, raws);
    RunKeepsInv(Boot(t0, raws), t0, st);
    var s := After(Boot(t0, raws), st);
    StepKeepsInv(s, t0, Server(w, now));
    ExitedLost(Apply(s, Server(w, now)), t0);
  }

  lemma RunOn(s: State, a: Step, more: seq<Step>)
    requires Sized(s) && Enabled(s, a) && Run(Apply(s, a), more)
    ensures Run(s, [a] + more) && After(s, [a] + more) == After(Apply(s, a), more)
  {
    assert ([a] + more)[1..] == more;
  }

  // A client that posts its request, and a signal before the server has looked at either.
  function PendingRun(): seq<Step> { [Client, Client, Signal] }

  /** The guard does fail, whatever the counters show: a run to a look at a set flag with a
      request in the semaphore, so that the exit loses it. */
  lemma RequestCanBeLost(t0: seq<nat>)
    ensures var st := PendingRun();
            && Run(Boot(t0, t0), st)
            && var s := After(Boot(t0, t0), st);
               && s.spc.Top? && s.wantsStop && s.measure == 1 && Enabled(s, Server(TimedOut, t0))
               && Lost(Apply(s, Server(TimedOut, t0)))
  {
    var s0, a := Boot(t0, t0), Server(TimedOut, t0);
    var s1 := Apply(s0, Client);
    var s2 := Apply(s1, Client);
    RunOn(s2, Signal, []);
    RunOn(s1, Client, [Signal] + []);
    RunOn(s0, Client, [Client] + ([Signal] + []));
    assert PendingRun() == [Client] + ([Client] + ([Signal] + []));
    ExitLosesRequest(t0, t0, PendingRun(), TimedOut, t0);
  }

  // A signal, the exit, and a client that calls start afterwards.
  function LateRun(t0: seq<nat>): seq<Step> { [Signal, Server(TimedOut, t0), Client, Client] }

  /** And so is a client lost that posts its request when the server is gone. */
  lemma LateClientIsLost(t0: seq<nat>)
    ensures Run(Boot(t0, t0), LateRun(t0)) && After(Boot(t0, t0), LateRun(t0)).spc.Exited?
    ensures Lost(After(Boot(t0, t0), LateRun(t0)))
  {
    var s0, a := Boot(t0, t0), Server(TimedOut, t0);
    var s1 := Apply(s0, Signal);
    var s2 := Apply(s1, a);
    var s3 := Apply(s2, Client);
    RunOn(s3, Client, []);
    RunOn(s2, Client, [Client] + []);
    RunOn(s1, a, [Client] + ([Client] + []));
    RunOn(s0, Signal, [a] + ([Client] + ([Client] + [])));
    assert LateRun(t0) == [Signal] + ([a] + ([Client] + ([Client] + [])));
    ExitStrandsClient(t0, t0, LateRun(t0));
  }
}
