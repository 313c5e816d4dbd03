// The invariant of the barrier, and what it guarantees over every run.

module BarrierTheorems {
  import opened Counting
  import opened TimerBarrier

  // g is the number of times the barrier has opened.
  ghost predicate Inv(b: View, cs: seq<int>, g: int) {
    && |cs| >= 1
    && (forall t :: 0 <= t < |cs| ==> 2 * g - 1 <= cs[t] <= 2 * g + 1)
    && (forall t: nat :: t in b.blocked <==> t < |cs| && cs[t] == 2 * g + 1)
    && (forall t: nat :: t in b.signalled <==> t < |cs| && cs[t] == 2 * g - 1)
    && b.count == |b.blocked| < |cs|
  }

  lemma CallBlocks(b: View, cs: seq<int>, g: int, t: nat)
    requires Inv(b, cs, g) && t < |cs| && cs[t] % 2 == 0 && b.count + 1 != |cs|
    ensures cs[t] == 2 * g
    ensures Inv(EnterView(|cs|, b, t), cs[t := cs[t] + 1], g)
  {
    assert cs[t] == 2 * g;
    assert t !in b.blocked;
  }

  // The last arrival finds everybody else blocked.
  lemma CallOpens(b: View, cs: seq<int>, g: int, t: nat)
    requires Inv(b, cs, g) && t < |cs| && cs[t] % 2 == 0 && b.count + 1 == |cs|
    ensures forall u :: 0 <= u < |cs| && u != t ==> cs[u] == 2 * g + 1
    ensures Inv(EnterView(|cs|, b, t), cs[t := cs[t] + 2], g + 1)
  {
    assert cs[t] == 2 * g;
    var others := Below(|cs|) - {t};
    assert b.blocked <= others;
    SubsetSize(b.blocked, others);
    assert b.blocked == others;
  }

  lemma WakeKeeps(b: View, cs: seq<int>, g: int, t: nat)
    requires Inv(b, cs, g) && t in b.signalled
    ensures t < |cs| && cs[t] == 2 * g - 1 && Inv(ReturnView(b, t), cs[t := cs[t] + 1], g)
  {
  }

  lemma StepKeepsInv(s: State, g: int, st: Step) returns (g': int)
    requires Inv(s.b, s.cs, g) && Enabled(s, st) && !st.Spurious?
    ensures g <= g' && Inv(Apply(s, st).b, Apply(s, st).cs, g')
  {
    g' := g;
    match st {
      case Call(t) =>
        if s.b.count + 1 == |s.cs| {
          CallOpens(s.b, s.cs, g, t);
          g' := g + 1;
        } else {
          CallBlocks(s.b, s.cs, g, t);
        }
      case Wake(t) => WakeKeeps(s.b, s.cs, g, t);
    }
  }

  lemma {:induction false} RunKeepsInv(s: State, g: int, st: seq<Step>) returns (g': int)
    requires Inv(s.b, s.cs, g) && Run(s, st)
    ensures Inv(After(s, st).b, After(s, st).cs, g') && |After(s, st).cs| == |s.cs|
    decreases |st|
  {
    if st == [] {
      g' := g;
    } else {
      g' := StepKeepsInv(s, g, st[0]);
      g' := RunKeepsInv(Apply(s, st[0]), g', st[1..]);
    }
  }

  // A blocked thread waits for somebody who has not entered the same wait.
  lemma SomeoneMissing(b: View, cs: seq<int>, g: int)
    requires Inv(b, cs, g)
    ensures exists v :: 0 <= v < |cs| && cs[v] <= 2 * g
  {
    SubsetSize(b.blocked, Below(|cs|));
    assert b.blocked != Below(|cs|);
    var v :| v in Below(|cs|) && v !in b.blocked;
    assert cs[v] <= 2 * g;
  }

  ghost predicate Safe(s: State, t: nat, u: nat)
    requires t < |s.cs| && u < |s.cs|
  {
    && s.b.count == |s.b.blocked| < |s.cs|
    && Completed(s, t) <= Entered(s, u)
    && Completed(s, t) <= Completed(s, u) + 1
    && (s.cs[t] % 2 == 1 <==> t in s.b.blocked + s.b.signalled)
    && (t in s.b.signalled ==> forall v :: 0 <= v < |s.cs| ==> Entered(s, v) >= Entered(s, t))
    && (t in s.b.blocked ==> exists v :: 0 <= v < |s.cs| && Entered(s, v) < Entered(s, t))
  }

  lemma InvIsSafe(s: State, g: int, t: nat, u: nat)
    requires Inv(s.b, s.cs, g) && t < |s.cs| && u < |s.cs|
    ensures Safe(s, t, u)
  {
    if t in s.b.blocked {
      SomeoneMissing(s.b, s.cs, g);
      var v :| 0 <= v < |s.cs| && s.cs[v] <= 2 * g;
      assert Entered(s, v) < Entered(s, t);
    }
  }

  /** In every run without spurious wakeups: the counter is the number of blocked threads and
      smaller than n; no thread leaves its k-th wait before every thread has entered its k-th;
      the numbers of completed waits differ by at most one; a thread is inside the barrier
      exactly when it is blocked or signalled; a signalled thread's wait has been entered by
      all, and a blocked thread's wait has not, so the reset leaves nobody behind. */
  lemma BarrierTheorem(n: nat, st: seq<Step>, t: nat, u: nat)
    requires 1 <= n && t < n && u < n && Run(Init(n), st)
    ensures |After(Init(n), st).cs| == n && Safe(After(Init(n), st), t, u)
  {
    var g := RunKeepsInv(Init(n), 0, st);
    InvIsSafe(After(Init(n), st), g, t, u);
  }

  lemma InvMoves(s: State, g: int) returns (a: Step)
    requires Inv(s.b, s.cs, g)
    ensures !a.Spurious? && Enabled(s, a)
  {
    SomeoneMissing(s.b, s.cs, g);
    var v :| 0 <= v < |s.cs| && s.cs[v] <= 2 * g;
    a := if s.cs[v] % 2 == 0 then Call(v) else Wake(v);
  }

  /** Absent spurious wakeups the barrier cannot hang: some thread can call or return. */
  lemma BarrierProgress(n: nat, st: seq<Step>)
    requires 1 <= n && Run(Init(n), st)
    ensures exists a: Step :: !a.Spurious? && Enabled(After(Init(n), st), a)
  {
    var g := RunKeepsInv(Init(n), 0, st);
    var a := InvMoves(After(Init(n), st), g);
  }

  /** Why spurious wakeups must be excluded: in any reachable state, letting one blocked thread
      go spuriously makes it complete a wait that some other thread has not entered. */
  lemma SpuriousWakeupBreaksIt(n: nat, st: seq<Step>, t: nat)
    requires 1 <= n && t < n && Run(Init(n), st) && Enabled(After(Init(n), st), Spurious(t))
    ensures var s := Apply(After(Init(n), st), Spurious(t));
            && Enabled(s, Wake(t))
            && exists u :: 0 <= u < n && Completed(Apply(s, Wake(t)), t) > Entered(Apply(s, Wake(t)), u)
  {
    BarrierTheorem(n, st, t, t);
    var s := After(Init(n), st);
    var v :| 0 <= v < n && Entered(s, v) < Entered(s, t);
    var s' := Apply(Apply(s, Spurious(t)), Wake(t));
    assert Entered(s', v) == Entered(s, v) && Completed(s', t) == Entered(s, t);
  }
}
