// The invariant of the kernel mode.
//
// A worker's clock counts the semaphore operations it has completed, four in each round; the
// sync process works on one half round h at a time. Then all clocks lie within one operation
// of each other's half round, every semaphore holds exactly as many tokens as clocks stand
// between the post and the wait that belong to it, and every token is meant for its taker.
// The history of kernel and probe calls is in step with the program counters.

module KernelInvariant {
  import opened Counting
  import opened KernelRunner

  // Semaphore operations a worker has completed: four in each round.
  function Clock(x: Worker): int {
    4 * x.round +
    (match x.pc
     case PostReady => 0
     case WaitGo => 1
     case WaitEnd => 3
     case Kill => 0
     case Done => 0
     case _ => 2)
  }

  function Clocks(ws: seq<Worker>): seq<int> {
    seq(|ws|, w requires 0 <= w < |ws| => Clock(ws[w]))
  }

  // The half round the sync process works on, and whether it is gathering.
  function Half(y: Sync): int {
    2 * y.round + (if y.pc.GatherReady? || y.pc.PostGo? then 0 else 1)
  }

  predicate Gathering(y: Sync) { y.pc.GatherReady? || y.pc.GatherDone? }

  // The gate of the half round in progress, and the gate of the one before (and after).
  function Gate(s: State): multiset<nat> {
    if s.sync.pc.GatherReady? || s.sync.pc.PostGo? then s.process else s.processEnd
  }

  function OtherGate(s: State): multiset<nat> {
    if s.sync.pc.GatherReady? || s.sync.pc.PostGo? then s.processEnd else s.process
  }

  // Exact token counts: f in the father semaphore, cur at the gate of half round h,
  // other at the other gate.
  ghost predicate Counts(cs: seq<int>, h: int, gathering: bool, i: nat, f: int, cur: int, other: int) {
    if gathering then
      && (forall w :: 0 <= w < |cs| ==> 2 * h - 1 <= cs[w] <= 2 * h + 1)
      && f + i == CountAtLeast(cs, 2 * h + 1)
      && cur == 0
      && other + CountAtLeast(cs, 2 * h) == |cs|
    else
      && (forall w :: 0 <= w < |cs| ==> 2 * h + 1 <= cs[w] <= 2 * h + 3)
      && f == CountAtLeast(cs, 2 * h + 3)
      && cur + CountAtLeast(cs, 2 * h + 2) == i
      && other == 0
  }

  // All tokens of m were posted for half round k.
  ghost predicate AllFor(m: multiset<nat>, k: int) {
    forall t :: t in m ==> t == k
  }

  // Every token is meant for the half round its taker is in.
  ghost predicate Tokens(h: int, gathering: bool, f: multiset<nat>, cur: multiset<nat>, other: multiset<nat>) {
    if gathering then AllFor(f, h) && AllFor(other, h - 1) else AllFor(f, h + 1) && AllFor(cur, h)
  }

  // The whole semaphore invariant, in terms of the half round h.
  ghost predicate Sems(cs: seq<int>, h: int, gathering: bool, i: nat,
                       f: multiset<nat>, cur: multiset<nat>, other: multiset<nat>) {
    Counts(cs, h, gathering, i, |f|, |cur|, |other|) && Tokens(h, gathering, f, cur, other)
  }

  ghost predicate SemInv(s: State) {
    Sems(Clocks(s.workers), Half(s.sync), Gathering(s.sync), s.sync.i, s.father, Gate(s), OtherGate(s))
  }

  predicate WorkerOk(c: Config, s: State, w: nat)
    requires w < |s.workers|
  {
    var x := s.workers[w];
    && x.round <= c.Rounds()
    && (x.round == c.Rounds() <==> x.pc.Kill? || x.pc.Done?)
    && (w != 0 ==> !x.pc.ProbesStart? && !x.pc.ProbesStop? && !x.pc.Kill?)
    && (w == 0 ==> (x.pc.Done? <==> !s.sync.alive))
  }

  predicate Shape(c: Config, s: State) {
    && 1 <= c.nbProcess == |s.workers|
    && s.sync.i < c.nbProcess
    && forall w :: 0 <= w < |s.workers| ==> WorkerOk(c, s, w)
  }

  ghost predicate Inv(c: Config, s: State) {
    Shape(c, s) && SemInv(s) && HistInv(s)
  }

  // ---------- the history ----------

  function EventRound(e: Event): nat { e.r }

  function EventWorker(e: Event): nat {
    match e
    case Entered(w, _) => w
    case Exited(w, _) => w
    case _ => 0
  }

  predicate SortedByRound(hist: seq<Event>) {
    forall a, b :: 0 <= a < b < |hist| ==> EventRound(hist[a]) <= EventRound(hist[b])
  }

  function Project(hist: seq<Event>, w: nat): seq<Event> {
    if hist == [] then []
    else
      var e := hist[|hist| - 1];
      Project(hist[..|hist| - 1], w) + (if EventWorker(e) == w then [e] else [])
  }

  // What worker w does in one round, in order.
  function RoundLog(w: nat, r: nat): seq<Event> {
    if w == 0 then [Started(r), Entered(w, r), Exited(w, r), Stopped(r)]
    else [Entered(w, r), Exited(w, r)]
  }

  function Log(w: nat, rounds: nat): seq<Event> {
    if rounds == 0 then [] else Log(w, rounds - 1) + RoundLog(w, rounds - 1)
  }

  // How much of RoundLog a worker at pc has done.
  function LogPosition(w: nat, pc: Pc): nat {
    match pc
    case CallKernel => if w == 0 then 1 else 0
    case InKernel => if w == 0 then 2 else 1
    case ProbesStop => 3
    case PostDone => if w == 0 then 4 else 2
    case WaitEnd => if w == 0 then 4 else 2
    case _ => 0
  }

  predicate LogOk(s: State, w: nat)
    requires w < |s.workers|
  {
    var x := s.workers[w];
    var p := LogPosition(w, x.pc);
    p <= |RoundLog(w, x.round)| && Project(s.hist, w) == Log(w, x.round) + RoundLog(w, x.round)[..p]
  }

  ghost predicate HistInv(s: State) {
    && SortedByRound(s.hist)
    && (forall e :: e in s.hist ==>
          EventWorker(e) < |s.workers| && 4 * EventRound(e) + 2 <= Clock(s.workers[EventWorker(e)]))
    && (forall w :: 0 <= w < |s.workers| ==> LogOk(s, w))
  }

  // ---------- preservation ----------

  lemma ClocksUpdate(ws: seq<Worker>, w: nat, x: Worker)
    requires w < |ws|
    ensures Clocks(ws[w := x]) == Clocks(ws)[w := Clock(x)]
  {
  }

  lemma {:induction false} InitInv(c: Config)
    requires 1 <= c.nbProcess
    ensures Inv(c, Init(c))
  {
    var s := Init(c);
    var cs := Clocks(s.workers);
    assert forall w :: 0 <= w < |cs| ==> cs[w] == 0;
    CountExtremes(cs, 1);
    CountExtremes(cs, 0);
    forall w | 0 <= w < |s.workers| ensures LogOk(s, w) {
      assert Log(w, 0) + RoundLog(w, 0)[..0] == [];
    }
  }

  // A post by worker w for its half round k moves its clock from 2 * k.
  lemma PostSems(cs: seq<int>, w: nat, k: nat, h: int, g: bool, i: nat,
                 f: multiset<nat>, cur: multiset<nat>, other: multiset<nat>)
    requires w < |cs| && Sems(cs, h, g, i, f, cur, other)
    requires cs[w] == 2 * k
    ensures k == if g then h else h + 1
    ensures Sems(cs[w := cs[w] + 1], h, g, i, f + multiset{k}, cur, other)
  {
    forall t { CountUpdate(cs, w, cs[w] + 1, t); }
  }

  // A wait at the gate of half round k moves a clock from 2 * k + 1; the token it takes
  // was posted for k. The gates of neighbouring half rounds are different semaphores.
  lemma WaitSems(cs: seq<int>, w: nat, k: nat, tok: nat, atCur: bool, h: int, g: bool, i: nat,
                 f: multiset<nat>, cur: multiset<nat>, other: multiset<nat>)
    requires w < |cs| && Sems(cs, h, g, i, f, cur, other)
    requires cs[w] == 2 * k + 1
    requires if atCur then tok in cur && k != h - 1 && k != h + 1 else tok in other && k != h
    ensures tok == k == if g then h - 1 else h
    ensures if atCur then Sems(cs[w := cs[w] + 1], h, g, i, f, cur - multiset{tok}, other)
            else Sems(cs[w := cs[w] + 1], h, g, i, f, cur, other - multiset{tok})
  {
    forall t { CountUpdate(cs, w, cs[w] + 1, t); }
    if atCur {
      assert |cur| == |cur - multiset{tok}| + 1;
    } else {
      assert |other| == |other - multiset{tok}| + 1;
    }
  }

  lemma GatherSems(cs: seq<int>, tok: nat, h: int, i: nat,
                   f: multiset<nat>, cur: multiset<nat>, other: multiset<nat>)
    requires Sems(cs, h, true, i, f, cur, other) && i < |cs| && tok in f
    ensures tok == h
    ensures if i + 1 < |cs| then Sems(cs, h, true, i + 1, f - multiset{tok}, cur, other)
            else Sems(cs, h, false, 0, f - multiset{tok}, cur, other)
  {
    assert |f| == |f - multiset{tok}| + 1;
    CountExtremes(cs, 2 * h + 1);
    CountExtremes(cs, 2 * h + 2);
    CountExtremes(cs, 2 * h + 3);
    CountMonotone(cs, 2 * h, 2 * h + 1);
  }

  lemma ReleaseSems(cs: seq<int>, h: nat, i: nat,
                    f: multiset<nat>, cur: multiset<nat>, other: multiset<nat>)
    requires Sems(cs, h, false, i, f, cur, other) && i < |cs|
    ensures if i + 1 < |cs| then Sems(cs, h, false, i + 1, f, cur + multiset{h}, other)
            else Sems(cs, h + 1, true, 0, f, other, cur + multiset{h})
  {
  }

  // The semaphore side of a worker's step, by kind.
  predicate Moved(s: State, s': State, w: nat) {
    w < |s.workers| == |s'.workers| && s'.workers == s.workers[w := s'.workers[w]]
  }

  predicate Posts(s: State, s': State, w: nat, k: nat) {
    && Moved(s, s', w)
    && Clock(s.workers[w]) == 2 * k && Clock(s'.workers[w]) == 2 * k + 1
    && s'.father == s.father + multiset{k} && s'.process == s.process && s'.processEnd == s.processEnd
    && s'.sync == s.sync
  }

  predicate WaitsGo(s: State, s': State, w: nat, r: nat, tok: nat) {
    && Moved(s, s', w)
    && Clock(s.workers[w]) == 4 * r + 1 && Clock(s'.workers[w]) == 4 * r + 2
    && tok in s.process
    && s'.father == s.father && s'.process == s.process - multiset{tok} && s'.processEnd == s.processEnd
    && s'.sync == s.sync
  }

  predicate WaitsEnd(s: State, s': State, w: nat, r: nat, tok: nat) {
    && Moved(s, s', w)
    && Clock(s.workers[w]) == 4 * r + 3 && Clock(s'.workers[w]) == 4 * r + 4
    && tok in s.processEnd
    && s'.father == s.father && s'.process == s.process && s'.processEnd == s.processEnd - multiset{tok}
    && s'.sync == s.sync
  }

  predicate Silent(s: State, s': State, w: nat) {
    && Moved(s, s', w)
    && Clock(s'.workers[w]) == Clock(s.workers[w])
    && s'.father == s.father && s'.process == s.process && s'.processEnd == s.processEnd
    && s'.sync == s.sync.(alive := s'.sync.alive)
  }

  lemma PostKind(c: Config, s: State, w: nat, tok: nat)
    requires Enabled(c, s, WorkerStep(w, tok))
    ensures var x := s.workers[w];
            && (x.pc.PostReady? ==> Posts(s, WorkerApply(c, s, w, tok), w, 2 * x.round))
            && (x.pc.PostDone? ==> Posts(s, WorkerApply(c, s, w, tok), w, 2 * x.round + 1))
  {
  }

  lemma WaitKind(c: Config, s: State, w: nat, tok: nat)
    requires Enabled(c, s, WorkerStep(w, tok))
    ensures var x := s.workers[w];
            && (x.pc.WaitGo? ==> WaitsGo(s, WorkerApply(c, s, w, tok), w, x.round, tok))
            && (x.pc.WaitEnd? ==> WaitsEnd(s, WorkerApply(c, s, w, tok), w, x.round, tok))
  {
  }

  predicate SemPc(pc: Pc) { pc.PostReady? || pc.PostDone? || pc.WaitGo? || pc.WaitEnd? }

  lemma SilentKind(c: Config, s: State, w: nat, tok: nat)
    requires Enabled(c, s, WorkerStep(w, tok)) && WorkerOk(c, s, w) && !SemPc(s.workers[w].pc)
    ensures Silent(s, WorkerApply(c, s, w, tok), w)
  {
  }

  lemma SemsOf(s: State, cs: seq<int>, h: int, g: bool, i: nat,
               f: multiset<nat>, cur: multiset<nat>, other: multiset<nat>)
    requires Clocks(s.workers) == cs && Half(s.sync) == h && Gathering(s.sync) == g && s.sync.i == i
    requires s.father == f && Gate(s) == cur && OtherGate(s) == other
    ensures SemInv(s) == Sems(cs, h, g, i, f, cur, other)
  {
  }

  lemma PostKeepsSems(s: State, s': State, w: nat, k: nat)
    requires SemInv(s) && Posts(s, s', w, k)
    ensures SemInv(s')
  {
    PostSems(Clocks(s.workers), w, k, Half(s.sync), Gathering(s.sync), s.sync.i, s.father, Gate(s), OtherGate(s));
    ClocksUpdate(s.workers, w, s'.workers[w]);
  }

  lemma WaitGoKeepsSems(s: State, s': State, w: nat, r: nat, tok: nat)
    requires SemInv(s) && WaitsGo(s, s', w, r, tok)
    ensures tok == 2 * r && SemInv(s')
  {
    ClocksUpdate(s.workers, w, s'.workers[w]);
    var cs, h, g, i := Clocks(s.workers), Half(s.sync), Gathering(s.sync), s.sync.i;
    if s.sync.pc.GatherReady? || s.sync.pc.PostGo? {
      WaitSems(cs, w, 2 * r, tok, true, h, g, i, s.father, s.process, s.processEnd);
      SemsOf(s', cs[w := cs[w] + 1], h, g, i, s.father, s'.process, s.processEnd);
    } else {
      WaitSems(cs, w, 2 * r, tok, false, h, g, i, s.father, s.processEnd, s.process);
      SemsOf(s', cs[w := cs[w] + 1], h, g, i, s.father, s.processEnd, s'.process);
    }
  }

  lemma WaitEndKeepsSems(s: State, s': State, w: nat, r: nat, tok: nat)
    requires SemInv(s) && WaitsEnd(s, s', w, r, tok)
    ensures tok == 2 * r + 1 && SemInv(s')
  {
    ClocksUpdate(s.workers, w, s'.workers[w]);
    var cs, h, g, i := Clocks(s.workers), Half(s.sync), Gathering(s.sync), s.sync.i;
    if s.sync.pc.GatherDone? || s.sync.pc.PostEnd? {
      WaitSems(cs, w, 2 * r + 1, tok, true, h, g, i, s.father, s.processEnd, s.process);
      SemsOf(s', cs[w := cs[w] + 1], h, g, i, s.father, s'.processEnd, s.process);
    } else {
      WaitSems(cs, w, 2 * r + 1, tok, false, h, g, i, s.father, s.process, s.processEnd);
      SemsOf(s', cs[w := cs[w] + 1], h, g, i, s.father, s.process, s'.processEnd);
    }
  }

  lemma SilentKeepsSems(s: State, s': State, w: nat)
    requires SemInv(s) && Silent(s, s', w)
    ensures SemInv(s')
  {
    ClocksUpdate(s.workers, w, s'.workers[w]);
    assert Clocks(s'.workers) == Clocks(s.workers);
  }

  lemma WorkerKeepsSems(c: Config, s: State, w: nat, tok: nat)
    requires SemInv(s) && Enabled(c, s, WorkerStep(w, tok)) && WorkerOk(c, s, w)
    ensures SemInv(WorkerApply(c, s, w, tok))
  {
    var s' := WorkerApply(c, s, w, tok);
    var x := s.workers[w];
    PostKind(c, s, w, tok);
    WaitKind(c, s, w, tok);
    match x.pc {
      case PostReady => PostKeepsSems(s, s', w, 2 * x.round);
      case PostDone => PostKeepsSems(s, s', w, 2 * x.round + 1);
      case WaitGo => WaitGoKeepsSems(s, s', w, x.round, tok);
      case WaitEnd => WaitEndKeepsSems(s, s', w, x.round, tok);
      case _ =>
        SilentKind(c, s, w, tok);
        SilentKeepsSems(s, s', w);
    }
  }

  // One turn of a loop of syncLoop. The token is taken from the father semaphore or added to
  // the gate; at the last turn the gates change roles when a release is over.
  predicate Turn(n: nat, s: State, s': State, tok: nat) {
    && s'.workers == s.workers
    && (if Gathering(s.sync)
        then tok in s.father && s'.father == s.father - multiset{tok}
        else s'.father == s.father)
    && var gate := if Gathering(s.sync) then Gate(s) else Gate(s) + multiset{Half(s.sync)};
       if s.sync.i + 1 < n then
         && Half(s'.sync) == Half(s.sync) && Gathering(s'.sync) == Gathering(s.sync)
         && s'.sync.i == s.sync.i + 1 && Gate(s') == gate && OtherGate(s') == OtherGate(s)
       else if Gathering(s.sync) then
         && Half(s'.sync) == Half(s.sync) && !Gathering(s'.sync)
         && s'.sync.i == 0 && Gate(s') == gate && OtherGate(s') == OtherGate(s)
       else
         && Half(s'.sync) == Half(s.sync) + 1 && Gathering(s'.sync)
         && s'.sync.i == 0 && Gate(s') == OtherGate(s) && OtherGate(s') == gate
  }

  lemma GatherTurns(c: Config, s: State, tok: nat)
    requires Enabled(c, s, SyncStep(tok)) && s.sync.i < c.nbProcess && Gathering(s.sync)
    ensures Turn(c.nbProcess, s, SyncApply(c, s, tok), tok)
  {
  }

  lemma GoTurns(c: Config, s: State, tok: nat)
    requires Enabled(c, s, SyncStep(tok)) && s.sync.i < c.nbProcess && s.sync.pc.PostGo?
    ensures Turn(c.nbProcess, s, SyncApply(c, s, tok), tok)
  {
    assert Gate(s) + multiset{Half(s.sync)} == s.process + multiset{2 * s.sync.round};
  }

  lemma EndTurns(c: Config, s: State, tok: nat)
    requires Enabled(c, s, SyncStep(tok)) && s.sync.i < c.nbProcess && s.sync.pc.PostEnd?
    ensures Turn(c.nbProcess, s, SyncApply(c, s, tok), tok)
  {
    var y := NextSync(c, s.sync);
    assert Half(s.sync) == 2 * s.sync.round + 1 && Gate(s) == s.processEnd;
    assert Half(y) == Half(s.sync) + (if s.sync.i + 1 < c.nbProcess then 0 else 1);
  }

  lemma SyncTurns(c: Config, s: State, tok: nat)
    requires Enabled(c, s, SyncStep(tok)) && s.sync.i < c.nbProcess
    ensures Turn(c.nbProcess, s, SyncApply(c, s, tok), tok)
  {
    match s.sync.pc {
      case PostGo => GoTurns(c, s, tok);
      case PostEnd => EndTurns(c, s, tok);
      case _ => GatherTurns(c, s, tok);
    }
  }

  lemma TurnKeepsSems(s: State, s': State, tok: nat)
    requires SemInv(s) && Turn(|s.workers|, s, s', tok) && s.sync.i < |s.workers|
    ensures Gathering(s.sync) ==> tok == Half(s.sync)
    ensures SemInv(s')
  {
    if Gathering(s.sync) {
      GatherSems(Clocks(s.workers), tok, Half(s.sync), s.sync.i, s.father, Gate(s), OtherGate(s));
    } else {
      ReleaseSems(Clocks(s.workers), Half(s.sync), s.sync.i, s.father, Gate(s), OtherGate(s));
    }
  }

  lemma SyncKeepsSems(c: Config, s: State, tok: nat)
    requires SemInv(s) && Enabled(c, s, SyncStep(tok)) && s.sync.i < c.nbProcess == |s.workers|
    ensures Gathering(s.sync) ==> tok == Half(s.sync)
    ensures SemInv(SyncApply(c, s, tok))
  {
    SyncTurns(c, s, tok);
    TurnKeepsSems(s, SyncApply(c, s, tok), tok);
  }

  lemma WorkerKeepsShape(c: Config, s: State, w: nat, tok: nat)
    requires Shape(c, s) && Enabled(c, s, WorkerStep(w, tok))
    ensures Shape(c, WorkerApply(c, s, w, tok))
  {
    var s' := WorkerApply(c, s, w, tok);
    assert WorkerOk(c, s, w) && WorkerOk(c, s', w);
    forall v | 0 <= v < |s.workers| && v != w ensures WorkerOk(c, s', v) {
      assert WorkerOk(c, s, v);
    }
  }

  lemma SyncKeepsShape(c: Config, s: State, tok: nat)
    requires Shape(c, s)
    ensures Shape(c, SyncApply(c, s, tok))
  {
    forall v | 0 <= v < |s.workers| ensures WorkerOk(c, SyncApply(c, s, tok), v) {
      assert WorkerOk(c, s, v);
    }
  }

  // What the counts say about any two workers: their clocks differ by at most two, and by
  // less than two when one of them is inside the probes or the kernel.
  lemma ClocksClose(s: State, v: nat, w: nat)
    requires SemInv(s) && v < |s.workers| && w < |s.workers|
    ensures Clock(s.workers[v]) <= Clock(s.workers[w]) + 2
    ensures Clock(s.workers[w]) % 2 == 0 ==> Clock(s.workers[v]) <= Clock(s.workers[w]) + 1
  {
    var cs := Clocks(s.workers);
    assert cs[v] == Clock(s.workers[v]) && cs[w] == Clock(s.workers[w]);
  }

  lemma {:induction false} ProjectSnoc(hist: seq<Event>, e: Event, w: nat)
    ensures Project(hist + [e], w) == Project(hist, w) + (if EventWorker(e) == w then [e] else [])
  {
    assert (hist + [e])[..|hist|] == hist;
  }

  predicate OneEvent(w: nat, x: Worker, x': Worker, e: Event) {
    && EventWorker(e) == w && EventRound(e) == x.round == x'.round
    && Clock(x) == 4 * x.round + 2
    && LogPosition(w, x'.pc) == LogPosition(w, x.pc) + 1 <= |RoundLog(w, x.round)|
    && RoundLog(w, x.round)[LogPosition(w, x.pc)] == e
  }

  lemma EventSorted(s: State, w: nat, e: Event)
    requires w < |s.workers| && SemInv(s) && HistInv(s)
    requires EventRound(e) == s.workers[w].round
    requires Clock(s.workers[w]) == 4 * s.workers[w].round + 2
    ensures SortedByRound(s.hist + [e])
  {
    forall a | 0 <= a < |s.hist| ensures EventRound(s.hist[a]) <= EventRound(e) {
      assert s.hist[a] in s.hist;
      ClocksClose(s, EventWorker(s.hist[a]), w);
    }
  }

  lemma LogSnoc(s: State, s': State, w: nat, e: Event)
    requires w < |s.workers| == |s'.workers| && LogOk(s, w)
    requires OneEvent(w, s.workers[w], s'.workers[w], e) && s'.hist == s.hist + [e]
    ensures LogOk(s', w)
  {
    var log := RoundLog(w, s.workers[w].round);
    var p := LogPosition(w, s.workers[w].pc);
    ProjectSnoc(s.hist, e, w);
    assert log[..p + 1] == log[..p] + [e];
  }

  lemma EventKeepsHist(s: State, s': State, w: nat, e: Event)
    requires SemInv(s) && HistInv(s) && Silent(s, s', w)
    requires OneEvent(w, s.workers[w], s'.workers[w], e)
    requires s'.hist == s.hist + [e]
    ensures HistInv(s')
  {
    EventSorted(s, w, e);
    forall v | 0 <= v < |s.workers| ensures LogOk(s', v) {
      assert LogOk(s, v);
      ProjectSnoc(s.hist, e, v);
      if v == w {
        LogSnoc(s, s', w, e);
      }
    }
  }

  predicate SamePlace(w: nat, x: Worker, x': Worker) {
    && Clock(x) <= Clock(x')
    && (|| (x'.round == x.round && LogPosition(w, x'.pc) == LogPosition(w, x.pc))
        || (x'.round == x.round + 1 && LogPosition(w, x.pc) == |RoundLog(w, x.round)|
            && LogPosition(w, x'.pc) == 0))
  }

  lemma NoEventKeepsHist(s: State, s': State, w: nat)
    requires HistInv(s) && Moved(s, s', w)
    requires s'.hist == s.hist
    requires SamePlace(w, s.workers[w], s'.workers[w])
    ensures HistInv(s')
  {
    forall v | 0 <= v < |s.workers| ensures LogOk(s', v) {
      assert LogOk(s, v);
    }
  }

  lemma QuietPosition(c: Config, w: nat, x: Worker)
    requires NewEvents(w, x) == []
    ensures SamePlace(w, x, NextWorker(c, w, x))
  {
  }

  lemma EventPosition(c: Config, w: nat, x: Worker)
    requires NewEvents(w, x) != [] && (w != 0 ==> !x.pc.ProbesStart? && !x.pc.ProbesStop?)
    ensures OneEvent(w, x, NextWorker(c, w, x), NewEvents(w, x)[0])
  {
  }

  lemma WorkerKeepsHist(c: Config, s: State, w: nat, tok: nat)
    requires Enabled(c, s, WorkerStep(w, tok)) && WorkerOk(c, s, w) && SemInv(s) && HistInv(s)
    ensures HistInv(WorkerApply(c, s, w, tok))
  {
    var s' := WorkerApply(c, s, w, tok);
    var x := s.workers[w];
    if NewEvents(w, x) == [] {
      QuietPosition(c, w, x);
      NoEventKeepsHist(s, s', w);
    } else {
      SilentKind(c, s, w, tok);
      EventPosition(c, w, x);
      EventKeepsHist(s, s', w, NewEvents(w, x)[0]);
    }
  }

  lemma SyncKeepsHist(c: Config, s: State, tok: nat)
    requires HistInv(s)
    ensures HistInv(SyncApply(c, s, tok))
  {
    forall w | 0 <= w < |s.workers| ensures LogOk(SyncApply(c, s, tok), w) { assert LogOk(s, w); }
  }
}
