// The reusable barrier of probes/libtimerarm/barrier.c: a mutex, a condition variable and a
// counter that is reset by the last arrival. There is no generation counter.
//
// barrier_wait has two atomic parts: from taking the mutex to leaving it or blocking on the
// condition variable (Enter), and the return of a signalled waiter (Return). The broadcast
// moves all blocked threads to the signalled ones.

module TimerBarrier {
  datatype View = View(count: nat, blocked: set<nat>, signalled: set<nat>)

  function EnterView(n: nat, b: View, t: nat): View {
    if b.count + 1 == n then View(0, {}, b.signalled + b.blocked)
    else View(b.count + 1, b.blocked + {t}, b.signalled)
  }

  function ReturnView(b: View, t: nat): View {
    b.(signalled := b.signalled - {t})
  }

  class Barrier {
    const nbToWait: nat
    var count: nat
    var blocked: set<nat>
    var signalled: set<nat>

    function Now(): View reads this { View(count, blocked, signalled) }

    constructor Create(n: nat)
      requires n != 0
      ensures nbToWait == n && Now() == View(0, {}, {})
    {
      nbToWait := n;
      count := 0;
      blocked := {};
      signalled := {};
    }

    // through says whether the caller returned at once or is now blocked.
    method Enter(t: nat) returns (through: bool)
      modifies this
      ensures Now() == EnterView(nbToWait, old(Now()), t)
      ensures through <==> old(count) + 1 == nbToWait
    {
      count := count + 1;
      if count == nbToWait {
        signalled := signalled + blocked;
        blocked := {};
        count := 0;
        through := true;
      } else {
        blocked := blocked + {t};
        through := false;
      }
    }

    method Return(t: nat)
      requires t in signalled
      modifies this
      ensures Now() == ReturnView(old(Now()), t)
    {
      signalled := signalled - {t};
    }
  }

  // ---------- n threads that call barrier_wait again and again ----------

  // cs[t] counts the calls and the returns of thread t: even outside, odd inside.
  datatype State = State(b: View, cs: seq<int>)

  function Entered(s: State, t: nat): int requires t < |s.cs| { (s.cs[t] + 1) / 2 }

  function Completed(s: State, t: nat): int requires t < |s.cs| { s.cs[t] / 2 }

  datatype Step = Call(t: nat) | Wake(t: nat) | Spurious(t: nat)

  predicate Enabled(s: State, st: Step) {
    match st
    case Call(t) => t < |s.cs| && s.cs[t] % 2 == 0
    case Wake(t) => t < |s.cs| && t in s.b.signalled
    case Spurious(t) => t < |s.cs| && t in s.b.blocked
  }

  // A spurious wakeup lets a blocked thread go without a broadcast.
  function Apply(s: State, st: Step): (s': State)
    requires Enabled(s, st)
    ensures |s'.cs| == |s.cs|
  {
    match st
    case Call(t) =>
      State(EnterView(|s.cs|, s.b, t), s.cs[t := s.cs[t] + (if s.b.count + 1 == |s.cs| then 2 else 1)])
    case Wake(t) => State(ReturnView(s.b, t), s.cs[t := s.cs[t] + 1])
    case Spurious(t) => s.(b := s.b.(blocked := s.b.blocked - {t}, signalled := s.b.signalled + {t}))
  }

  function Init(n: nat): State {
    State(View(0, {}, {}), seq(n, _ => 0))
  }

  predicate Run(s: State, st: seq<Step>)
    decreases |st|
  {
    st == [] || (Enabled(s, st[0]) && !st[0].Spurious? && Run(Apply(s, st[0]), st[1..]))
  }

  function After(s: State, st: seq<Step>): (s': State)
    requires Run(s, st)
    ensures |s'.cs| == |s.cs|
    decreases |st|
  {
    if st == [] then s else After(Apply(s, st[0]), st[1..])
  }
}
