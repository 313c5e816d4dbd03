// The invariant of the energy server and its client, kept by every step.
//
// At most one request is under way: as a token, in service, or as an answer. The counters are
// those of an exact count between the last start and the last read. The windows in the log are
// in order and do not overlap; the shared array is the newest of them, except while the server
// writes it; and a result of the client is a window that lies inside its call of start and its
// return from stop.

module EnergyInvariant {
  import opened Arithmetic
  import opened EnergyMsr
  import opened EnergyServer

  function One(b: bool): nat { if b then 1 else 0 }

  predicate ClientWaits(s: State) { s.cpc.WaitStart? || s.cpc.WaitStop? }

  predicate InService(s: State) { s.spc.Stopping? || s.spc.Copying? || s.spc.PostRead? }

  // The window of the request in hand is already in the log.
  predicate Logged(s: State) { s.spc.Copying? || s.spc.PostRead? }

  predicate TokenInv(s: State) {
    && s.measure + One(InService(s)) + s.read == One(ClientWaits(s))
    && |s.log| == s.answers + s.read + One(Logged(s))
  }

  // A counter after a start at ref and a last read at last.
  predicate CounterOk(m: Counter, ref: nat, last: nat) {
    && ref <= last
    && m == Counter(last % WORD, ref % WORD, last / WORD - ref / WORD)
    && last / WORD - ref / WORD < WORD
  }

  predicate ClockOk(s: State, k: nat)
    requires Sized(s) && k < |s.now|
  {
    && CounterOk(s.msr[k], s.ref[k], s.last[k])
    && s.last[k] <= s.now[k] && s.now[k] - s.last[k] < WORD
    && s.now[k] / WORD - s.ref[k] / WORD < WORD
    && s.called[k] <= s.now[k]
  }

  predicate ClockInv(s: State)
    requires Sized(s)
  {
    forall k :: 0 <= k < |s.now| ==> ClockOk(s, k)
  }

  predicate WindowOk(w: Window, n: nat) {
    && |w.from| == |w.upto| == |w.sent| == n
    && forall k :: 0 <= k < n ==> w.from[k] <= w.upto[k] && w.sent[k] == w.upto[k] - w.from[k]
  }

  // The first window begins at t0 and no window begins before the previous one ended.
  predicate LogInv(s: State, t0: seq<nat>)
    requires Sized(s)
  {
    && |t0| == |s.now|
    && (forall j :: 0 <= j < |s.log| ==> WindowOk(s.log[j], |s.now|))
    && (forall j :: 0 < j < |s.log| ==> AllAtLeast(s.log[j].from, s.log[j - 1].upto))
    && (|s.log| > 0 ==> s.log[0].from == t0)
    && (s.log == [] ==> s.ref == t0)
    && (s.log != [] ==>
          var w := s.log[|s.log| - 1];
          && AllAtLeast(s.now, w.upto)
          && (!Logged(s) && !s.spc.Restarting? ==> AllAtLeast(s.ref, w.upto)))
  }

  predicate CopyInv(s: State)
    requires Sized(s)
  {
    && s.si <= |s.energy|
    && s.ci <= |s.res|
    && (Logged(s) || s.spc.Restarting? ==> s.log != [])
    && (Logged(s) ==> s.lastResults == s.log[|s.log| - 1].sent)
    && (s.spc.Copying? ==> forall k: nat :: k < s.si ==> s.energy[k] == s.lastResults[k])
    && (s.log != [] && !s.spc.Copying? ==> s.energy == s.log[|s.log| - 1].sent)
    && (s.cpc.CopyOut? ==> s.log != [] && forall k: nat :: k < s.ci ==> s.res[k] == s.energy[k])
  }

  // The client's start request has been answered and its stop request not yet measured.
  predicate Pending(s: State) {
    || s.cpc.Measuring? || s.cpc.PostStop?
    || (s.cpc.WaitStart? && s.read > 0)
    || (s.cpc.WaitStop? && s.read == 0 && !Logged(s))
  }

  // Its stop request has been measured: the last window of the log is its measurement.
  predicate Measured(s: State) {
    s.cpc.CopyOut? || (s.cpc.WaitStop? && (s.read > 0 || Logged(s)))
  }

  // The client's measurement begins after it called start.
  predicate FreshInv(s: State)
    requires Sized(s)
  {
    && (Pending(s) ==> s.spc.Restarting? || AllAtLeast(s.ref, s.called))
    && (Measured(s) ==> s.log != [] && AllAtLeast(s.log[|s.log| - 1].from, s.called))
  }

  // The result is the window of the answer taken, and that window lies inside the pair.
  predicate OutcomeOk(o: Outcome, log: seq<Window>) {
    && 0 <= o.answer < |log|
    && o.res == log[o.answer].sent
    && AllAtLeast(log[o.answer].from, o.called)
    && AllAtLeast(o.returned, log[o.answer].upto)
  }

  predicate OutcomeInv(s: State)
    requires Sized(s)
  {
    forall j :: 0 <= j < |s.outcomes| ==> OutcomeOk(s.outcomes[j], s.log)
  }

  predicate Inv(s: State, t0: seq<nat>) {
    Sized(s) && TokenInv(s) && ClockInv(s) && LogInv(s, t0) && CopyInv(s) && FreshInv(s) && OutcomeInv(s)
  }

  // ---------- the counters are exact ----------

  lemma AdvanceOk(m: Counter, ref: nat, last: nat, now: nat, raw: nat)
    requires CounterOk(m, ref, last) && last <= now && now - last < WORD
    requires now / WORD - ref / WORD < WORD && raw % WORD == now % WORD
    ensures CounterOk(Advance(m, Some(raw)), ref, now)
    ensures Elapsed(Advance(m, Some(raw))) == now - ref
  {
    assert now % WORD < last % WORD ==> now / WORD == last / WORD + 1;
    assert now % WORD >= last % WORD ==> now / WORD == last / WORD;
  }

  lemma ReadsOk(s: State, raws: seq<nat>)
    requires Sized(s) && ClockInv(s) && Shown(raws, s.now)
    ensures forall k :: 0 <= k < |s.now| ==>
              CounterOk(Reads(raws, s.msr)[k], s.ref[k], s.now[k])
              && Elapsed(Reads(raws, s.msr)[k]) == s.now[k] - s.ref[k]
  {
    forall k | 0 <= k < |s.now|
      ensures CounterOk(Reads(raws, s.msr)[k], s.ref[k], s.now[k])
              && Elapsed(Reads(raws, s.msr)[k]) == s.now[k] - s.ref[k]
    {
      assert ClockOk(s, k);
      AdvanceOk(s.msr[k], s.ref[k], s.last[k], s.now[k], raws[k]);
    }
  }

  // ---------- preservation, step by step ----------

  lemma BootInv(t0: seq<nat>, raws: seq<nat>)
    requires Shown(raws, t0)
    ensures Inv(Boot(t0, raws), t0)
  {
  }

  lemma TickKeeps(s: State, t0: seq<nat>, later: seq<nat>)
    requires Inv(s, t0) && AllAtLeast(later, s.now) && InTime(s, later)
    ensures Inv(s.(now := later), t0)
  {
    forall k | 0 <= k < |later| ensures ClockOk(s.(now := later), k) { assert ClockOk(s, k); }
  }

  // The clocks do not change, except that called may become now.
  lemma ClockFrame(s: State, s': State)
    requires Sized(s) && Sized(s') && ClockInv(s)
    requires s'.msr == s.msr && s'.now == s.now && s'.ref == s.ref && s'.last == s.last
    requires s'.called == s.called || s'.called == s.now
    ensures ClockInv(s')
  {
    forall k | 0 <= k < |s.now| ensures ClockOk(s', k) { assert ClockOk(s, k); }
  }

  // The server looks at its flag or waits: at most a token is taken.
  lemma WaitingKeeps(s: State, s': State, t0: seq<nat>)
    requires Inv(s, t0) && (s.spc.Top? || s.spc.Waiting?)
    requires s' == s.(measure := s'.measure, spc := s'.spc)
    requires if s'.spc.Stopping? then s'.measure + 1 == s.measure
             else s'.measure == s.measure && (s'.spc.Top? || s'.spc.Waiting? || s'.spc.Updating? || s'.spc.Exited?)
    ensures Inv(s', t0)
  {
    ClockFrame(s, s');
  }

  lemma UpdatingKeeps(s: State, t0: seq<nat>, raws: seq<nat>)
    requires Inv(s, t0) && s.spc.Updating? && Shown(raws, s.now)
    ensures Inv(s.(msr := Reads(raws, s.msr), last := s.now, spc := Top), t0)
  {
    var s' := s.(msr := Reads(raws, s.msr), last := s.now, spc := Top);
    ReadsOk(s, raws);
    forall k | 0 <= k < |s.now| ensures ClockOk(s', k) { assert ClockOk(s, k); }
  }

  lemma StoppingWindow(s: State, t0: seq<nat>, raws: seq<nat>)
    requires Inv(s, t0) && s.spc.Stopping? && Shown(raws, s.now)
    ensures WindowOk(Window(s.ref, s.now, Results(Reads(raws, s.msr))), |s.now|)
  {
    ReadsOk(s, raws);
    forall k | 0 <= k < |s.now| ensures s.ref[k] <= s.now[k] { assert ClockOk(s, k); }
  }

  lemma StoppingLog(s: State, s': State, t0: seq<nat>, sent: seq<int>)
    requires Sized(s) && Sized(s') && LogInv(s, t0) && s.spc.Stopping? && s'.spc.Copying?
    requires s'.log == s.log + [Window(s.ref, s.now, sent)] && WindowOk(Window(s.ref, s.now, sent), |s.now|)
    requires s'.now == s.now && s'.ref == s.ref
    ensures LogInv(s', t0)
  {
  }

  lemma StoppingClocks(s: State, s': State, raws: seq<nat>)
    requires Sized(s) && Sized(s') && ClockInv(s) && Shown(raws, s.now)
    requires s'.msr == Reads(raws, s.msr) && s'.now == s.now && s'.ref == s.ref && s'.last == s.now
    requires s'.called == s.called
    ensures ClockInv(s')
  {
    ReadsOk(s, raws);
    forall k | 0 <= k < |s.now| ensures ClockOk(s', k) { assert ClockOk(s, k); }
  }

  lemma StoppingKeeps(s: State, t0: seq<nat>, raws: seq<nat>)
    requires Inv(s, t0) && s.spc.Stopping? && Shown(raws, s.now)
    ensures var msr := Reads(raws, s.msr);
            Inv(s.(msr := msr, last := s.now, lastResults := Results(msr), spc := Copying, si := 0,
                   log := s.log + [Window(s.ref, s.now, Results(msr))]), t0)
  {
    var msr := Reads(raws, s.msr);
    var s' := s.(msr := msr, last := s.now, lastResults := Results(msr), spc := Copying, si := 0,
                 log := s.log + [Window(s.ref, s.now, Results(msr))]);
    StoppingWindow(s, t0, raws);
    StoppingLog(s, s', t0, Results(msr));
    StoppingClocks(s, s', raws);
  }

  lemma CopyOneKeeps(s: State, t0: seq<nat>)
    requires Inv(s, t0) && s.spc.Copying? && s.si < |s.energy|
    ensures Inv(s.(energy := s.energy[s.si := s.lastResults[s.si]], si := s.si + 1), t0)
  {
    ClockFrame(s, s.(energy := s.energy[s.si := s.lastResults[s.si]], si := s.si + 1));
  }

  lemma CopyDoneKeeps(s: State, t0: seq<nat>)
    requires Inv(s, t0) && s.spc.Copying? && s.si >= |s.energy|
    ensures Inv(s.(spc := PostRead), t0)
  {
    ClockFrame(s, s.(spc := PostRead));
    assert s.energy == s.lastResults;
  }

  lemma PostReadKeeps(s: State, t0: seq<nat>)
    requires Inv(s, t0) && s.spc.PostRead?
    ensures Inv(s.(read := s.read + 1, spc := Restarting), t0)
  {
    ClockFrame(s, s.(read := s.read + 1, spc := Restarting));
  }

  lemma RestartingKeeps(s: State, t0: seq<nat>, raws: seq<nat>)
    requires Inv(s, t0) && s.spc.Restarting? && Shown(raws, s.now)
    ensures Inv(s.(msr := Begins(raws), ref := s.now, last := s.now, spc := Top), t0)
  {
    var s' := s.(msr := Begins(raws), ref := s.now, last := s.now, spc := Top);
    forall k | 0 <= k < |s.now| ensures ClockOk(s', k) && s.now[k] >= s.called[k] { assert ClockOk(s, k); }
    assert AllAtLeast(s.now, s.called);
  }

  lemma IdleKeeps(s: State, t0: seq<nat>)
    requires Inv(s, t0) && s.cpc.Idle?
    ensures Inv(s.(called := s.now, cpc := PostStart), t0)
  {
    ClockFrame(s, s.(called := s.now, cpc := PostStart));
  }

  lemma ClientPostKeeps(s: State, t0: seq<nat>)
    requires Inv(s, t0) && (s.cpc.PostStart? || s.cpc.PostStop?)
    ensures Inv(s.(measure := s.measure + 1, cpc := if s.cpc.PostStart? then WaitStart else WaitStop), t0)
  {
    ClockFrame(s, s.(measure := s.measure + 1, cpc := if s.cpc.PostStart? then WaitStart else WaitStop));
  }

  lemma StartAnsweredKeeps(s: State, t0: seq<nat>)
    requires Inv(s, t0) && s.cpc.WaitStart? && s.read > 0
    ensures Inv(s.(read := s.read - 1, answers := s.answers + 1, cpc := Measuring), t0)
  {
    ClockFrame(s, s.(read := s.read - 1, answers := s.answers + 1, cpc := Measuring));
  }

  lemma StopCalledKeeps(s: State, t0: seq<nat>)
    requires Inv(s, t0) && s.cpc.Measuring?
    ensures Inv(s.(cpc := PostStop), t0)
  {
    ClockFrame(s, s.(cpc := PostStop));
  }

  lemma StopAnsweredKeeps(s: State, t0: seq<nat>)
    requires Inv(s, t0) && s.cpc.WaitStop? && s.read > 0
    ensures Inv(s.(read := s.read - 1, answers := s.answers + 1, cpc := CopyOut, ci := 0), t0)
  {
    ClockFrame(s, s.(read := s.read - 1, answers := s.answers + 1, cpc := CopyOut, ci := 0));
  }

  lemma CopyOutKeeps(s: State, t0: seq<nat>)
    requires Inv(s, t0) && s.cpc.CopyOut?
    ensures Inv(ClientApply(s), t0)
  {
    var s' := ClientApply(s);
    forall k | 0 <= k < |s.now| ensures ClockOk(s', k) { assert ClockOk(s, k); }
    if s.ci >= |s.res| {
      assert WindowOk(s.log[|s.log| - 1], |s.now|);
      assert OutcomeOk(Outcome(s.called, s.now, s.res, s.answers - 1), s.log);
    }
  }

  lemma WaitKeeps(s: State, t0: seq<nat>, w: WaitResult, raws: seq<nat>)
    requires Inv(s, t0) && Enabled(s, Server(w, raws)) && (s.spc.Top? || s.spc.Waiting?)
    ensures Inv(ServerApply(s, w, raws), t0)
  {
    WaitingKeeps(s, ServerApply(s, w, raws), t0);
  }

  lemma CopyKeeps(s: State, t0: seq<nat>, w: WaitResult, raws: seq<nat>)
    requires Inv(s, t0) && Enabled(s, Server(w, raws)) && s.spc.Copying?
    ensures Inv(ServerApply(s, w, raws), t0)
  {
    if s.si < |s.energy| { CopyOneKeeps(s, t0); } else { CopyDoneKeeps(s, t0); }
  }

  lemma ServerKeeps(s: State, t0: seq<nat>, w: WaitResult, raws: seq<nat>)
    requires Inv(s, t0) && Enabled(s, Server(w, raws))
    ensures Inv(ServerApply(s, w, raws), t0)
  {
    match s.spc {
      case Top => WaitKeeps(s, t0, w, raws);
      case Waiting => WaitKeeps(s, t0, w, raws);
      case Updating => UpdatingKeeps(s, t0, raws);
      case Stopping => StoppingKeeps(s, t0, raws);
      case Copying => CopyKeeps(s, t0, w, raws);
      case PostRead => PostReadKeeps(s, t0);
      case Restarting => RestartingKeeps(s, t0, raws);
      case Exited =>
    }
  }

  lemma ClientKeeps(s: State, t0: seq<nat>)
    requires Inv(s, t0) && Enabled(s, Client)
    ensures Inv(ClientApply(s), t0)
  {
    match s.cpc {
      case Idle => IdleKeeps(s, t0);
      case PostStart => ClientPostKeeps(s, t0);
      case WaitStart => StartAnsweredKeeps(s, t0);
      case Measuring => StopCalledKeeps(s, t0);
      case PostStop => ClientPostKeeps(s, t0);
      case WaitStop => StopAnsweredKeeps(s, t0);
      case CopyOut => CopyOutKeeps(s, t0);
    }
  }

  lemma StepKeepsInv(s: State, t0: seq<nat>, st: Step)
    requires Inv(s, t0) && Enabled(s, st)
    ensures Inv(Apply(s, st), t0)
  {
    match st {
      case Tick(later) => TickKeeps(s, t0, later);
      case Signal => ClockFrame(s, s.(wantsStop := true));
      case Server(w, raws) => ServerKeeps(s, t0, w, raws);
      case Client => ClientKeeps(s, t0);
    }
  }

  lemma {:induction false} RunKeepsInv(s: State, t0: seq<nat>, st: seq<Step>)
    requires Inv(s, t0) && Run(s, st)
    ensures Inv(After(s, st), t0)
    decreases |st|
  {
    if st != [] {
      StepKeepsInv(s, t0, st[0]);
      RunKeepsInv(Apply(s, st[0]), t0, st[1..]);
    }
  }
}
