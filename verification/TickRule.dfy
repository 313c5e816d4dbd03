// What the tick rule of src/ProbeDataCollector.cpp:276-287 means: when a probe is due, and in
// which runs of the update thread it is ever updated, before and behind the wrap of the clock.

module TickRule {
  import opened Arithmetic
  import opened BasePeriod
  import opened WidePeriods
  import opened Collector

  /** A probe is due exactly when a multiple of its period lies one to four microseconds
      ahead. On a multiple itself it is due only if its period is at most four. */
  lemma DueMeansJustBefore(period: nat, elapsed: nat)
    requires period > 0
    ensures Due(period, elapsed) <==> exists m :: elapsed < m <= elapsed + 4 && Divides(period, m)
    ensures Divides(period, elapsed) ==> (Due(period, elapsed) <==> period <= 4)
  {
    var next := elapsed + (period - elapsed % period);
    NextMultiple(period, elapsed);
    forall m | elapsed < m <= elapsed + 4 && Divides(period, m) ensures next <= m {
      AtLeastApart(period, elapsed, m);
    }
    if Divides(period, elapsed) {
      var k: int :| elapsed == period * k;
      MultipleMod(period, k);
    }
  }

  lemma NextMultiple(period: nat, elapsed: nat)
    requires period > 0
    ensures Divides(period, elapsed + (period - elapsed % period))
  {
    assert elapsed + (period - elapsed % period) == period * (elapsed / period + 1);
  }

  // No multiple of the period lies strictly between elapsed and the next one.
  lemma AtLeastApart(period: nat, elapsed: nat, m: int)
    requires period > 0 && elapsed < m && Divides(period, m)
    ensures m >= elapsed + (period - elapsed % period)
  {
    var k: int :| m == period * k;
    var q := elapsed / period;
    assert elapsed == period * q + elapsed % period;
    MulCancel(period, q, k);
    MulMonotone(period, q + 1, k);
    assert period * (q + 1) == period * q + period;
  }

  lemma MultipleMod(period: int, k: int)
    requires period > 0
    ensures (period * k) % period == 0
  {
    DivMod(period * k, period, k, 0);
  }

  // ---------- the runs of the update thread ----------

  // The time after n completed sleeps.
  function Clock(g: nat, n: nat): nat { (n * g) % WRAP }

  lemma ClockNext(g: nat, n: nat)
    ensures (Clock(g, n) + g) % WRAP == Clock(g, n + 1)
  {
    assert (n + 1) * g == n * g + g;
    WrapAdd(n * g, g);
  }

  lemma WrapAdd(a: nat, b: nat)
    ensures (a % WRAP + b) % WRAP == (a + b) % WRAP
  {
  }

  lemma {:induction false} UpdatesAt(g: nat, periods: seq<nat>, n: nat, sleeps: seq<bool>, j: nat)
    requires j < |Updates(g, periods, Clock(g, n), sleeps)|
    ensures Updates(g, periods, Clock(g, n), sleeps)[j]
         == Updated(periods, Periodic(periods), Clock(g, n + j + 1))
    decreases |sleeps|
  {
    if !sleeps[0] {
      UpdatesAt(g, periods, n, sleeps[1..], j);
    } else {
      ClockNext(g, n);
      if j > 0 { UpdatesAt(g, periods, n + 1, sleeps[1..], j - 1); }
    }
  }

  lemma {:induction false} InUpdated(periods: seq<nat>, probes: seq<nat>, elapsed: nat, i: nat)
    requires Active(periods, probes)
    ensures i in Updated(periods, probes, elapsed)
       <==> i in probes && i < |periods| && periods[i] != 0 && Due(periods[i], elapsed)
    decreases |probes|
  {
    if probes != [] {
      var n := |probes| - 1;
      assert probes == probes[..n] + [probes[n]];
      InUpdated(periods, probes[..n], elapsed, i);
    }
  }

  lemma {:induction false} InPeriodicTo(periods: seq<nat>, n: nat, i: nat)
    requires n <= |periods|
    ensures i in Periodic(periods[..n]) <==> i < n && periods[i] != 0
  {
    if n > 0 {
      InPeriodicTo(periods, n - 1, i);
      PeriodicStep(periods, n - 1);
      InAppended(Periodic(periods[..n - 1]), n - 1, periods[n - 1] != 0, i);
    }
  }

  lemma InAppended(a: seq<nat>, n: nat, more: bool, i: nat)
    ensures i in a + (if more then [n] else []) <==> i in a || (more && i == n)
  {
  }

  lemma InPeriodic(periods: seq<nat>, i: nat)
    ensures i in Periodic(periods) <==> i < |periods| && periods[i] != 0
  {
    assert periods[..|periods|] == periods;
    InPeriodicTo(periods, |periods|, i);
  }

  /** Every run of the update thread, however often its sleep is interrupted: probe i is among
      the probes updated at the j-th completed sleep exactly when it has a period and is due at
      that time, the wrap of the 64-bit clock included. */
  lemma UpdatedInRun(g: nat, periods: seq<nat>, sleeps: seq<bool>, j: nat, i: nat)
    requires j < |Updates(g, periods, 0, sleeps)|
    ensures i in Updates(g, periods, 0, sleeps)[j]
       <==> i < |periods| && periods[i] != 0 && Due(periods[i], Clock(g, j + 1))
  {
    FromStart(g, periods, sleeps, j);
    InUpdated(periods, Periodic(periods), Clock(g, j + 1), i);
    InPeriodic(periods, i);
  }

  lemma FromStart(g: nat, periods: seq<nat>, sleeps: seq<bool>, j: nat)
    requires j < |Updates(g, periods, 0, sleeps)|
    ensures Updates(g, periods, 0, sleeps)[j] == Updated(periods, Periodic(periods), Clock(g, j + 1))
  {
    assert Clock(g, 0) == 0;
    UpdatesAt(g, periods, 0, sleeps, j);
  }

  lemma {:induction false} AllCompleted(g: nat, periods: seq<nat>, elapsed: nat, n: nat)
    ensures |Updates(g, periods, elapsed, seq(n, _ => true))| == n
    decreases n
  {
    if n > 0 {
      assert seq(n, _ => true)[1..] == seq((n - 1) as nat, _ => true);
      AllCompleted(g, periods, (elapsed + g) % WRAP, n - 1);
    }
  }

  // This run of the thread updates probe i.
  ghost predicate UpdatesProbe(g: nat, periods: seq<nat>, sleeps: seq<bool>, i: nat) {
    exists j: nat :: j < |Updates(g, periods, 0, sleeps)| && i in Updates(g, periods, 0, sleeps)[j]
  }

  // The clock has not wrapped yet.
  predicate BeforeWrap(g: nat, periods: seq<nat>, sleeps: seq<bool>) {
    |Updates(g, periods, 0, sleeps)| * g < WRAP
  }

  // From the n-th tick being due, a run that updates.
  lemma DueGivesRun(g: nat, periods: seq<nat>, i: nat, n: nat)
    requires i < |periods| && periods[i] != 0 && n > 0 && Due(periods[i], Clock(g, n))
    ensures UpdatesProbe(g, periods, seq(n, _ => true), i)
  {
    var sleeps := seq(n, _ => true);
    AllCompleted(g, periods, 0, n);
    UpdatedInRun(g, periods, sleeps, n - 1, i);
    assert i in Updates(g, periods, 0, sleeps)[n - 1];
  }

  // And back: an updated probe was due at some tick.
  lemma RunGivesDue(g: nat, periods: seq<nat>, sleeps: seq<bool>, i: nat) returns (n: nat)
    requires UpdatesProbe(g, periods, sleeps, i)
    ensures i < |periods| && periods[i] != 0 && 0 < n <= |Updates(g, periods, 0, sleeps)|
    ensures Due(periods[i], Clock(g, n))
  {
    var j: nat :| j < |Updates(g, periods, 0, sleeps)| && i in Updates(g, periods, 0, sleeps)[j];
    UpdatedInRun(g, periods, sleeps, j, i);
    n := j + 1;
  }

  // ---------- before the wrap ----------

  lemma {:induction false} BezoutSorted(hi: nat, lo: nat) returns (x: int, y: int)
    requires hi >= lo > 0
    ensures Gcd(hi, lo) == hi * x + lo * y
    decreases lo
  {
    if hi % lo == 0 {
      x, y := 0, 1;
    } else {
      var q, r := hi / lo, hi % lo;
      var s, t := BezoutSorted(lo, r);
      x, y := t, s - q * t;
      assert hi == lo * q + r;
      BackStep(hi, lo, q, r, s, t);
      assert Gcd(hi, lo) == Gcd(lo, r);
    }
  }

  lemma Bezout(a: nat, b: nat) returns (u: int, v: int)
    requires a > 0 && b > 0
    ensures Gcd(a, b) == a * u + b * v
  {
    if a < b {
      v, u := BezoutSorted(b, a);
      assert Gcd(a, b) == Gcd(b, a);
    } else {
      u, v := BezoutSorted(a, b);
    }
  }

  lemma BackStep(hi: int, lo: int, q: int, r: int, s: int, t: int)
    requires hi == lo * q + r
    ensures lo * s + r * t == hi * t + lo * (s - q * t)
  {
    assert hi * t == (lo * q) * t + r * t;
    assert lo * (s - q * t) == lo * s - lo * (q * t);
    assert (lo * q) * t == lo * (q * t);
  }

  // In the first p ticks one lies a greatest common divisor before a multiple of p.
  lemma TickBefore(g: nat, p: nat) returns (n: nat)
    requires g > 0 && p > 0
    ensures 0 < n <= p && Divides(p, n * g + Gcd(g, p))
  {
    var u, v := Bezout(g, p);
    var k, r := (-u) / p, (-u) % p;
    assert -u == p * k + r;
    n := if r == 0 then p else r;
    var c := if r == 0 then 1 else 0;
    assert n == -u - p * k + p * c;
    Collect(g, p, u, v, k, c, n);
  }

  lemma Collect(g: int, p: int, u: int, v: int, k: int, c: int, n: int)
    requires n == -u - p * k + p * c
    ensures Divides(p, n * g + (g * u + p * v))
  {
    assert n * g == -(g * u) - p * (k * g) + p * (c * g);
    assert n * g + (g * u + p * v) == p * (v - k * g + c * g);
  }

  // The distances of the ticks to the multiples of p are multiples of this.
  function Spacing(g: nat, p: nat): nat
    requires p > 0
  {
    if g == 0 then p else Gcd(g, p)
  }

  lemma SpacingDivides(g: nat, p: nat)
    requires p > 0
    ensures Spacing(g, p) > 0 && Divides(Spacing(g, p), g) && Divides(Spacing(g, p), p)
  {
    if g == 0 { DividesSelf(p); } else { GcdDivides(g, p); }
  }

  lemma DueBeforeWrap(g: nat, p: nat) returns (n: nat)
    requires g < WORD && 0 < p < WORD && Spacing(g, p) <= 4
    ensures n > 0 && n * g < WRAP && Due(p, Clock(g, n))
  {
    if g == 0 {
      n := 1;
    } else {
      n := TickBefore(g, p);
      MulMonotone(g, n, p);
      MulMonotone(p, g, WORD - 1);
      assert n * g == g * n && g * p == p * g;
      DueMeansJustBefore(p, n * g);
    }
  }

  lemma NotDueBeforeWrap(g: nat, p: nat, n: nat)
    requires p > 0 && n * g < WRAP && Spacing(g, p) > 4
    ensures !Due(p, Clock(g, n))
  {
    SpacingDivides(g, p);
    assert n * g == g * n;
    assert Divides(g, n * g);
    DividesTransitive(Spacing(g, p), g, n * g);
    NeverDue(Spacing(g, p), p, n * g);
  }

  // A multiple of d is never one to four short of another one when d is at least 5.
  lemma NeverDue(d: nat, period: nat, elapsed: nat)
    requires d >= 5 && period > 0 && Divides(d, period) && Divides(d, elapsed)
    ensures !Due(period, elapsed)
  {
    DividesRemainder(d, elapsed, period);
    DividesCombination(d, period, elapsed % period, -1);
    DividesAtLeast(d, period - elapsed % period);
  }

  /** Up to the wrap of the clock, for any base period g: some run, with any sleeps interrupted,
      updates probe i exactly when it has a period and the greatest common divisor of g and
      this period is at most four microseconds. */
  lemma UpdatesBeforeWrap(g: nat, periods: seq<nat>, i: nat)
    requires g < WORD && Unsigned(periods) && i < |periods|
    ensures (exists sleeps :: BeforeWrap(g, periods, sleeps) && UpdatesProbe(g, periods, sleeps, i))
       <==> periods[i] != 0 && Spacing(g, periods[i]) <= 4
  {
    var p := periods[i];
    if p != 0 && Spacing(g, p) <= 4 {
      var n := DueBeforeWrap(g, p);
      AllCompleted(g, periods, 0, n);
      DueGivesRun(g, periods, i, n);
      assert BeforeWrap(g, periods, seq(n, _ => true));
    } else {
      forall sleeps | BeforeWrap(g, periods, sleeps) ensures !UpdatesProbe(g, periods, sleeps, i) {
        if UpdatesProbe(g, periods, sleeps, i) {
          var n := RunGivesDue(g, periods, sleeps, i);
          MulMonotone(g, n, |Updates(g, periods, 0, sleeps)|);
          assert n * g == g * n;
          NotDueBeforeWrap(g, p, n);
        }
      }
    }
  }

  // ---------- behind the wrap ----------

  // Multiples of an odd number take every value modulo a power of two.
  lemma {:induction false} OddReaches(a: nat, e: nat, target: int) returns (n: nat, m: int)
    requires a % 2 == 1
    ensures n * a == target + m * Pow2(e) && n < Pow2(e)
  {
    if e == 0 {
      n, m := 0, -target;
    } else {
      n, m := OddReaches(a, e - 1, target);
      n, m := OneMoreBit(n, a, target, m, Pow2(e - 1));
    }
  }

  lemma OneMoreBit(n: nat, a: nat, target: int, m: int, p: nat) returns (n': nat, m': int)
    requires a % 2 == 1 && n < p && n * a == target + m * p
    ensures n' * a == target + m' * (2 * p) && n' < 2 * p
  {
    if m % 2 == 0 {
      n', m' := n, m / 2;
      HalveEven(n * a, target, m', p);
    } else {
      n', m' := n + p, (m + a) / 2;
      HalveOdd(n, a, target, m, m', p);
    }
  }

  lemma HalveEven(x: int, target: int, h: int, p: int)
    requires x == target + (2 * h) * p
    ensures x == target + h * (2 * p)
  {
  }

  lemma HalveOdd(n: int, a: int, target: int, m: int, h: int, p: int)
    requires n * a == target + m * p && m + a == 2 * h
    ensures (n + p) * a == target + h * (2 * p)
  {
    assert (n + p) * a == n * a + p * a;
    assert m * p + p * a == (m + a) * p;
  }

  lemma WrapIsPow2()
    ensures Pow2(64) == WRAP
  {
    WordIsPow2();
    Pow2Add(32, 32);
  }

  // A number is a power of two times an odd one.
  lemma {:induction false} OddPart(g: nat) returns (e: nat, a: nat)
    requires g > 0
    ensures g == Pow2(e) * a && a % 2 == 1
  {
    if g % 2 == 1 {
      e, a := 0, g;
    } else {
      e, a := OddPart(g / 2);
      e := e + 1;
      Doubled(Pow2(e - 1), a);
    }
  }

  lemma Doubled(p: int, a: int)
    ensures 2 * (p * a) == (2 * p) * a
  {
  }

  // The clock shows every multiple of the power of two in g.
  lemma ClockReaches(g: nat, q: nat, a: nat, t: nat) returns (n: nat)
    requires g == q * a && a % 2 == 1 && q > 0 && q * t < WRAP
    ensures n > 0 && Clock(g, n) == q * t
  {
    WrapIsPow2();
    var m;
    n, m := OddReaches(a, 64, t);
    n, m := n + WRAP, m + a;
    ScaleUp(q, n, a, t, m, WRAP);
    DivMod(n * g, WRAP, q * m, q * t);
  }

  lemma ScaleUp(c: int, n: int, a: int, t: int, m: int, w: int)
    requires n * a == t + m * w
    ensures n * (c * a) == (c * m) * w + c * t
  {
    assert n * (c * a) == c * (n * a);
    assert c * (t + m * w) == c * t + c * (m * w);
    assert c * (m * w) == (c * m) * w;
  }

  // A multiple of q = 2 ^ e, one to four before a multiple of p, for q or p not divisible by 8.
  lemma JustBefore(e: nat, p: nat) returns (t: nat, c: nat)
    requires p > 0 && (e < 3 || p % 8 != 0)
    ensures 0 < c <= 4 && Pow2(e) * t < Pow2(e) * p && Divides(p, Pow2(e) * t + c)
  {
    var q := Pow2(e);
    if e < 3 {
      assert q == 1 || q == 2 || q == 4 by { assert e == 0 || e == 1 || e == 2; }
      t, c := p - 1, q;
      assert q * (p - 1) + q == p * q;
    } else {
      var k, b := OddPart(p);
      SmallPower(k, b);
      c := Pow2(k);
      var n, m := OddReaches(b, e - k, 1);
      Pow2Add(k, e - k);
      t := Factor(p, c, b, n, m, Pow2(e - k), q);
    }
  }

  lemma SmallPower(k: nat, b: nat)
    requires (Pow2(k) * b) % 8 != 0
    ensures k < 3 && Pow2(k) <= 4
  {
    if k >= 3 {
      Pow2Add(3, k - 3);
      assert Pow2(3) == 8;
      assert Pow2(k) * b == 8 * (Pow2(k - 3) * b);
      DivMod(Pow2(k) * b, 8, Pow2(k - 3) * b, 0);
    }
  }

  // b * n is one more than m times h, so p * n is c more than m times q.
  lemma Factor(p: nat, c: nat, b: nat, n: nat, m: int, h: nat, q: nat) returns (t: nat)
    requires p == c * b && q == c * h && h > 1 && c > 0 && b > 0 && n * b == 1 + m * h && n < h
    ensures q * t < q * p && Divides(p, q * t + c)
  {
    if n == 0 { NoUnit(m, h); }
    MulAtLeast(n, b);
    if m < 0 { MulMonotone(h, m, -1); }
    t := m;
    Multiply(c, b, n, m, h);
    FactorBound(p, n, h, c, q);
    assert q * p == p * q;
  }

  lemma Multiply(c: int, b: int, n: int, m: int, h: int)
    requires n * b == 1 + m * h
    ensures (c * h) * m + c == (c * b) * n
  {
    assert (c * h) * m == c * (m * h);
    assert (c * b) * n == c * (n * b);
    assert c * (1 + m * h) == c + c * (m * h);
  }

  lemma FactorBound(p: nat, n: nat, h: nat, c: nat, q: nat)
    requires p > 0 && n < h && c > 0 && q == c * h
    ensures p * n < p * q
  {
    Strict(p, n, h);
    MulAtLeast(c, h);
    MulMonotone(p, h, q);
  }

  lemma Strict(d: int, a: int, b: int)
    requires d > 0 && a < b
    ensures d * a < d * b
  {
    MulMonotone(d, a, b - 1);
    assert d * (b - 1) == d * b - d;
  }

  lemma NoUnit(m: int, h: int)
    requires h > 1
    ensures 1 + m * h != 0
  {
    if m >= 0 { MulMonotone(h, 0, m); } else { MulMonotone(h, m, -1); }
  }

  lemma DueEver(g: nat, p: nat) returns (n: nat)
    requires 0 < g < WORD && 0 < p < WORD && !(g % 8 == 0 && p % 8 == 0)
    ensures n > 0 && Due(p, Clock(g, n))
  {
    var e, a := OddPart(g);
    if e >= 3 && p % 8 == 0 {
      if g % 8 != 0 { SmallPower(e, a); }
      assert false;
    }
    var t, c := JustBefore(e, p);
    PowerBelow(Pow2(e), a, g, p);
    n := ClockReaches(g, Pow2(e), a, t);
    DueMeansJustBefore(p, Clock(g, n));
  }

  lemma PowerBelow(q: nat, a: nat, g: nat, p: nat)
    requires g == q * a && a % 2 == 1 && g < WORD && p < WORD
    ensures q * p < WRAP
  {
    MulMonotone(q, 1, a);
    MulMonotone(p, q, WORD - 1);
    assert q * p == p * q && p * (WORD - 1) <= (WORD - 1) * (WORD - 1) by { MulMonotone(WORD - 1, p, WORD - 1); }
  }

  // The wrap is a multiple of 8 as well.
  lemma NotDueByEights(g: nat, period: nat, n: nat)
    requires g % 8 == 0 && period > 0 && period % 8 == 0
    ensures !Due(period, Clock(g, n))
  {
    assert g == 8 * (g / 8) && WRAP == 8 * (WRAP / 8) && period == 8 * (period / 8);
    assert Divides(8, g) && Divides(8, WRAP) && Divides(8, period);
    assert n * g == g * n;
    assert Divides(g, n * g);
    DividesTransitive(8, g, n * g);
    DividesRemainder(8, n * g, WRAP);
    NeverDue(8, period, Clock(g, n));
  }

  /** Without end, over runs of any length, the wrap of the clock included: some run updates
      probe i exactly when it has a period and 8 does not divide both this and the base
      period. (A base period of 0 leaves the clock at 0.) */
  lemma UpdatesEver(g: nat, periods: seq<nat>, i: nat)
    requires g < WORD && Unsigned(periods) && i < |periods|
    ensures (exists sleeps :: UpdatesProbe(g, periods, sleeps, i))
       <==> periods[i] != 0 && (if g == 0 then periods[i] <= 4 else !(g % 8 == 0 && periods[i] % 8 == 0))
  {
    var p := periods[i];
    if g == 0 {
      StandingClock(periods, i);
    } else if p != 0 && !(g % 8 == 0 && p % 8 == 0) {
      var n := DueEver(g, p);
      DueGivesRun(g, periods, i, n);
    } else {
      forall sleeps ensures !UpdatesProbe(g, periods, sleeps, i) {
        if UpdatesProbe(g, periods, sleeps, i) {
          var n := RunGivesDue(g, periods, sleeps, i);
          NotDueByEights(g, p, n);
        }
      }
    }
  }

  lemma StandingClock(periods: seq<nat>, i: nat)
    requires Unsigned(periods) && i < |periods|
    ensures (exists sleeps :: UpdatesProbe(0, periods, sleeps, i)) <==> periods[i] != 0 && periods[i] <= 4
  {
    UpdatesBeforeWrap(0, periods, i);
    assert forall sleeps :: BeforeWrap(0, periods, sleeps);
  }

  // ---------- the base period of the probes ----------

  lemma GcdOfMultiple(g: nat, p: nat)
    requires g > 0 && p > 0 && Divides(g, p)
    ensures Gcd(g, p) == g
  {
    DividesSelf(g);
    GcdGreatest(g, g, p);
    DividesAtLeast(g, Gcd(g, p));
  }

  /** For periods below INT_MAX, all of them multiples of the base period: a run updates a probe
      before the wrap exactly when the base period is at most 4, and ever exactly when 8 does
      not divide the base period. */
  lemma UpdatesOfSmallPeriods(periods: seq<nat>, i: nat)
    requires (forall k :: 0 <= k < |periods| ==> periods[k] < INT_MAX) && i < |periods| && periods[i] != 0
    ensures PeriodOf(periods) == Returns(MinPeriod(periods))
    ensures var g := MinPeriod(periods);
            && ((exists sleeps :: BeforeWrap(g, periods, sleeps) && UpdatesProbe(g, periods, sleeps, i)) <==> g <= 4)
            && ((exists sleeps :: UpdatesProbe(g, periods, sleeps, i)) <==> g % 8 != 0)
  {
    var g, p := MinPeriod(periods), periods[i];
    NarrowPeriods(periods);
    BaseDivides(periods, i);
    GcdOfMultiple(g, p);
    UpdatesBeforeWrap(g, periods, i);
    UpdatesEver(g, periods, i);
    if g % 8 == 0 {
      DividesMod(8, g);
      DividesTransitive(8, g, p);
      DividesMod(8, p);
    }
  }

  lemma BaseDivides(periods: seq<nat>, i: nat)
    requires (forall k :: 0 <= k < |periods| ==> periods[k] < INT_MAX) && i < |periods| && periods[i] != 0
    ensures 0 < MinPeriod(periods) < INT_MAX && Divides(MinPeriod(periods), periods[i])
  {
    assert periods[i] in Nonzero(periods);
    assert Nonzero(periods)[0] in Nonzero(periods);
    CountedMembers(periods);
    MinPeriodOfCounted(periods);
  }

  /** With INT_MAX in front the same base period behaves otherwise: 6 updates a probe. */
  lemma SentinelUpdates()
    ensures PeriodOf([INT_MAX, 6]) == Returns(6)
    ensures exists sleeps :: BeforeWrap(6, [INT_MAX, 6], sleeps) && UpdatesProbe(6, [INT_MAX, 6], sleeps, 0)
  {
    SentinelBreaksOrder();
    NarrowPeriods([INT_MAX, 6]);
    assert INT_MAX % 6 == 1 && 6 % 1 == 0;
    assert Gcd(1, 6) == 1 && Gcd(6, INT_MAX) == 1;
    UpdatesBeforeWrap(6, [INT_MAX, 6], 0);
  }
}
