// How often the tick rule of src/ProbeDataCollector.cpp:276-287 updates a probe, by counting
// the positions that the ticks take in the period of the probe.

module TickRate {
  import opened Arithmetic
  import opened BasePeriod
  import opened Collector
  import opened Counting
  import opened TickRule
  import opened WidePeriods

  // Ticks until the clock has the same position in the period again.
  function Cycle(g: nat, p: nat): nat
    requires g > 0 && p > 0
  {
    p / Gcd(g, p)
  }

  lemma CycleTimesGcd(g: nat, p: nat)
    requires g > 0 && p > 0
    ensures Cycle(g, p) > 0 && p == Gcd(g, p) * Cycle(g, p)
  {
    GcdDivides(g, p);
    var d := Gcd(g, p);
    var k: int :| p == d * k;
    DivMod(p, d, k, 0);
    MulCancel(d, 0, k);
  }

  // The position of tick n in the period, in units of the greatest common divisor.
  function Position(g: nat, p: nat, n: nat): nat
    requires g > 0 && p > 0
  {
    (n * g) % p / Gcd(g, p)
  }

  lemma PositionIs(g: nat, p: nat, n: nat)
    requires g > 0 && p > 0
    ensures Position(g, p, n) < Cycle(g, p) && (n * g) % p == Gcd(g, p) * Position(g, p, n)
  {
    var d := Gcd(g, p);
    CycleTimesGcd(g, p);
    GcdDivides(g, p);
    assert n * g == g * n;
    assert Divides(g, n * g);
    DividesTransitive(d, g, n * g);
    DividesRemainder(d, n * g, p);
    var r: int :| (n * g) % p == d * r;
    if r < 0 { MulMonotone(d, r, -1); }
    DivMod((n * g) % p, d, r, 0);
    MulCancel(d, r, Cycle(g, p));
  }

  // Two ticks at the same position are whole cycles apart.
  lemma SamePosition(g: nat, p: nat, m: nat, n: nat)
    requires g > 0 && p > 0 && m <= n < m + Cycle(g, p) && Position(g, p, m) == Position(g, p, n)
    ensures m == n
  {
    PositionIs(g, p, m);
    PositionIs(g, p, n);
    CycleTimesGcd(g, p);
    var s := SameTime(g, p, m, n);
    var u, v := Bezout(g, p);
    WholeCycles(n - m, g, p, Gcd(g, p), Cycle(g, p), s, u, v);
    if n > m { DividesAtLeast(Cycle(g, p), n - m); }
  }

  lemma SameTime(g: int, p: int, m: int, n: int) returns (s: int)
    requires p > 0 && (m * g) % p == (n * g) % p
    ensures (n - m) * g == p * s
  {
    SameRemainder(p, n * g, m * g);
    s := n * g / p - m * g / p;
    assert (n - m) * g == n * g - m * g;
  }

  lemma WholeCycles(x: int, g: int, p: int, d: int, l: int, s: int, u: int, v: int)
    requires d > 0 && x * g == p * s && d == g * u + p * v && p == d * l
    ensures Divides(l, x)
  {
    assert x * d == x * (g * u) + x * (p * v);
    assert x * (g * u) == (x * g) * u == (p * s) * u == p * (s * u);
    assert x * (p * v) == p * (x * v);
    var k := s * u + x * v;
    assert p * k == p * (s * u) + p * (x * v);
    assert (d * l) * k == d * (l * k);
    Cancel(d, x, l * k);
  }

  lemma SameRemainder(p: int, a: int, b: int)
    requires p > 0 && a % p == b % p
    ensures a - b == p * (a / p - b / p)
  {
    assert a == p * (a / p) + a % p && b == p * (b / p) + b % p;
    assert p * (a / p - b / p) == p * (a / p) - p * (b / p);
  }

  lemma Cancel(d: int, a: int, b: int)
    requires d > 0 && d * a == d * b
    ensures a == b
  {
    if a < b { Strict(d, a, b); }
    if b < a { Strict(d, b, a); }
  }

  lemma DueByPosition(g: nat, p: nat, n: nat)
    requires g > 0 && p > 0 && n * g < WRAP
    ensures Due(p, Clock(g, n)) <==> Cycle(g, p) - Position(g, p, n) <= 4 / Gcd(g, p)
  {
    var d, l, r := Gcd(g, p), Cycle(g, p), Position(g, p, n);
    PositionIs(g, p, n);
    CycleTimesGcd(g, p);
    DueByDistance(p, n * g);
    Distance(d, l, r);
    AtMostFour(l - r, d);
  }

  lemma DueByDistance(p: nat, t: nat)
    requires p > 0
    ensures Due(p, t) <==> p - t % p <= 4
  {
  }

  lemma Distance(d: int, l: int, r: int)
    ensures d * l - d * r == (l - r) * d
  {
  }

  lemma AtMostFour(j: nat, d: nat)
    requires d > 0
    ensures j * d <= 4 <==> j <= 4 / d
  {
    var q := 4 / d;
    assert 4 == d * q + 4 % d;
    if j <= q {
      MulMonotone(d, j, q);
      assert j * d == d * j;
    } else {
      MulMonotone(d, q + 1, j);
      assert j * d == d * j && d * (q + 1) == d * q + d;
    }
  }

  ghost function Range(lo: nat, hi: nat): (r: set<nat>)
    ensures forall j: nat :: j in r <==> lo <= j < hi
    ensures |r| == if lo <= hi then hi - lo else 0
  {
    if lo >= hi then {} else Range(lo, hi - 1) + {hi - 1}
  }

  // The completed sleeps among the len ones from first on at which probe i is updated.
  ghost function Hits(updates: seq<seq<nat>>, i: nat, first: nat, len: nat): set<nat>
    requires first + len <= |updates|
  {
    set j | j in Range(first, first + len) && i in updates[j]
  }

  // Those of one cycle at which a probe of period p is due.
  ghost function DueTicks(g: nat, p: nat, first: nat): set<nat>
    requires g > 0 && p > 0
  {
    set j | j in Range(first, first + Cycle(g, p)) && DueAfter(g, p, j)
  }

  // At sleep j, counted from 0, the clock is at tick j + 1.
  predicate DueAfter(g: nat, p: nat, j: nat)
    requires p > 0
  {
    Due(p, Clock(g, j + 1))
  }

  function Min(a: nat, b: nat): nat { if a < b then a else b }

  // The same for sleep j, behind which the clock is at tick j + 1.
  function PositionAfter(g: nat, p: nat, j: nat): nat
    requires g > 0 && p > 0
  {
    Position(g, p, j + 1)
  }

  // Positions, one for each of the ticks in s.
  ghost function Positions(g: nat, p: nat, s: set<nat>): set<nat>
    requires g > 0 && p > 0
  {
    set j | j in s :: PositionAfter(g, p, j)
  }

  lemma PositionsAdd(g: nat, p: nat, s: set<nat>, j: nat)
    requires g > 0 && p > 0
    ensures Positions(g, p, s + {j}) == Positions(g, p, s) + {PositionAfter(g, p, j)}
  {
  }

  lemma NewPosition(g: nat, p: nat, s: set<nat>, j: nat, first: nat)
    requires g > 0 && p > 0 && first <= j < first + Cycle(g, p) && j !in s
    requires forall k :: k in s ==> first <= k < first + Cycle(g, p)
    ensures PositionAfter(g, p, j) !in Positions(g, p, s)
  {
    forall k | k in s ensures PositionAfter(g, p, k) != PositionAfter(g, p, j) {
      if PositionAfter(g, p, k) == PositionAfter(g, p, j) {
        if j < k { SamePosition(g, p, j + 1, k + 1); } else { SamePosition(g, p, k + 1, j + 1); }
      }
    }
  }

  lemma {:induction false} OnePositionEach(g: nat, p: nat, s: set<nat>, first: nat)
    requires g > 0 && p > 0 && forall j :: j in s ==> first <= j < first + Cycle(g, p)
    ensures |Positions(g, p, s)| == |s|
    decreases |s|
  {
    if s == {} {
      assert Positions(g, p, s) == {};
    } else {
      var j :| j in s;
      OnePositionEach(g, p, s - {j}, first);
      NewPosition(g, p, s - {j}, j, first);
      PositionsAdd(g, p, s - {j}, j);
      assert s - {j} + {j} == s;
    }
  }

  // A cycle of ticks takes every position.
  lemma AllPositions(g: nat, p: nat, first: nat)
    requires g > 0 && p > 0
    ensures Positions(g, p, Range(first, first + Cycle(g, p))) == Range(0, Cycle(g, p))
  {
    var w, l := Range(first, first + Cycle(g, p)), Cycle(g, p);
    OnePositionEach(g, p, w, first);
    forall j | j in w ensures PositionAfter(g, p, j) in Range(0, l) { PositionIs(g, p, j + 1); }
    SubsetSize(Positions(g, p, w), Range(0, l));
  }

  lemma DueAtLast(g: nat, p: nat, j: nat, end: nat)
    requires g > 0 && p > 0 && j < end && end * g < WRAP
    ensures DueAfter(g, p, j)
       <==> Cycle(g, p) - Min(Cycle(g, p), 4 / Gcd(g, p)) <= PositionAfter(g, p, j) < Cycle(g, p)
  {
    MulMonotone(g, j + 1, end);
    assert (j + 1) * g == g * (j + 1) && end * g == g * end;
    DueByPosition(g, p, j + 1);
    PositionIs(g, p, j + 1);
  }

  // The due ticks of a cycle are those at its last positions.
  lemma LastPositions(g: nat, p: nat, first: nat, lo: nat)
    requires g > 0 && p > 0
    requires forall j: nat :: first <= j < first + Cycle(g, p) ==>
               (DueAfter(g, p, j) <==> lo <= PositionAfter(g, p, j) < Cycle(g, p))
    ensures Positions(g, p, DueTicks(g, p, first)) == Range(lo, Cycle(g, p))
  {
    AllPositions(g, p, first);
    forall r | r in Range(lo, Cycle(g, p)) ensures r in Positions(g, p, DueTicks(g, p, first)) {
      assert r in Positions(g, p, Range(first, first + Cycle(g, p)));
      var j :| j in Range(first, first + Cycle(g, p)) && PositionAfter(g, p, j) == r;
      assert j in DueTicks(g, p, first);
    }
  }

  lemma DueInCycle(g: nat, p: nat, first: nat)
    requires g > 0 && p > 0 && (first + Cycle(g, p)) * g < WRAP
    ensures |DueTicks(g, p, first)| == Min(Cycle(g, p), 4 / Gcd(g, p))
  {
    var l, k := Cycle(g, p), Min(Cycle(g, p), 4 / Gcd(g, p));
    forall j: nat | first <= j < first + l
      ensures DueAfter(g, p, j) <==> l - k <= PositionAfter(g, p, j) < l
    {
      DueAtLast(g, p, j, first + l);
    }
    LastPositions(g, p, first, l - k);
    OnePositionEach(g, p, DueTicks(g, p, first), first);
  }

  /** In every run of the thread, interrupted or not: among any completed sleeps of one cycle
      before the wrap, a probe is updated as often as the greatest common divisor of base
      period and period fits into four microseconds, but not more often than there are sleeps. */
  lemma UpdatesPerCycle(g: nat, periods: seq<nat>, sleeps: seq<bool>, i: nat, first: nat)
    requires g > 0 && i < |periods| && periods[i] != 0
    requires first + Cycle(g, periods[i]) <= |Updates(g, periods, 0, sleeps)|
    requires (first + Cycle(g, periods[i])) * g < WRAP
    ensures |Hits(Updates(g, periods, 0, sleeps), i, first, Cycle(g, periods[i]))|
         == Min(Cycle(g, periods[i]), 4 / Gcd(g, periods[i]))
  {
    var p, updates := periods[i], Updates(g, periods, 0, sleeps);
    var l := Cycle(g, p);
    forall j: nat | first <= j < first + l ensures i in updates[j] <==> DueAfter(g, p, j) {
      UpdatedInRun(g, periods, sleeps, j, i);
    }
    assert Hits(updates, i, first, l) == DueTicks(g, p, first);
    DueInCycle(g, p, first);
  }

  /** The documented rate: in a cycle there are as many updates as periods exactly when the base
      period is 4 and the period larger, or the base period is 3 and divides the period, or the
      two are equal and at most 4. */
  lemma OncePerPeriod(g: nat, periods: seq<nat>, sleeps: seq<bool>, i: nat, first: nat)
    requires g > 0 && i < |periods| && periods[i] != 0
    requires first + Cycle(g, periods[i]) <= |Updates(g, periods, 0, sleeps)|
    requires (first + Cycle(g, periods[i])) * g < WRAP
    ensures var p := periods[i];
            |Hits(Updates(g, periods, 0, sleeps), i, first, Cycle(g, p))| * p == Cycle(g, p) * g
            <==> (g == 4 && p > 4) || (g == 3 && p % 3 == 0) || (g == p && g <= 4)
  {
    UpdatesPerCycle(g, periods, sleeps, i, first);
    RateCondition(g, periods[i]);
  }

  // With d the greatest common divisor there are g / d periods in a cycle.
  lemma RateCondition(g: nat, p: nat)
    requires g > 0 && p > 0
    ensures Min(Cycle(g, p), 4 / Gcd(g, p)) * p == Cycle(g, p) * g
            <==> (g == 4 && p > 4) || (g == 3 && p % 3 == 0) || (g == p && g <= 4)
  {
    var d, l := Gcd(g, p), Cycle(g, p);
    CycleTimesGcd(g, p);
    GcdDivides(g, p);
    var e: int :| g == d * e;
    MulCancel(d, 0, e);
    PeriodsInCycle(d, l, e, Min(l, 4 / d));
    if g == p { DividesSelf(g); GcdOfMultiple(g, p); }
    DividesMod(3, p);
    if g == 3 && p % 3 == 0 { GcdOfMultiple(g, p); }
    if d == 3 { assert Divides(3, p); }
    SmallCases(g, p, d, l, e, p % 3 == 0);
  }

  lemma PeriodsInCycle(d: int, l: int, e: int, n: int)
    requires d > 0 && l > 0
    ensures n * (d * l) == l * (d * e) <==> n == e
  {
    assert n * (d * l) == (d * l) * n && l * (d * e) == (d * l) * e;
    MulAtLeast(d, l);
    if (d * l) * n == (d * l) * e { Cancel(d * l, n, e); }
  }

  lemma SmallCases(g: int, p: int, d: int, l: int, e: int, threes: bool)
    requires g == d * e && p == d * l && d > 0 && l > 0 && e > 0
    requires (g == p ==> d == g) && (if d == 3 then threes else g == 3 ==> !threes)
    ensures Min(l, 4 / d) == e <==> (g == 4 && p > 4) || (g == 3 && threes) || (g == p && g <= 4)
  {
    if d > 4 {
      MulAtLeast(e, d);
      assert g == e * d && 4 / d == 0;
    } else if d == 1 {
      SmallCase(g, p, 1, l, e, 4, threes);
    } else if d == 2 {
      SmallCase(g, p, 2, l, e, 2, threes);
    } else if d == 3 {
      SmallCase(g, p, 3, l, e, 1, threes);
    } else {
      assert d == 4;
      SmallCase(g, p, 4, l, e, 1, threes);
    }
  }

  // A greatest common divisor d, which fits k times into four microseconds.
  lemma SmallCase(g: int, p: int, d: int, l: int, e: int, k: int, threes: bool)
    requires l > 0 && e > 0
    requires || (d == 1 && k == 4 && g == e && p == l)
             || (d == 2 && k == 2 && g == 2 * e && p == 2 * l)
             || (d == 3 && k == 1 && g == 3 * e && p == 3 * l)
             || (d == 4 && k == 1 && g == 4 * e && p == 4 * l)
    requires (g == p ==> d == g) && (if d == 3 then threes else g == 3 ==> !threes)
    ensures Min(l, k) == e <==> (g == 4 && p > 4) || (g == 3 && threes) || (g == p && g <= 4)
  {
  }
}
