// The base period of src/ProbeDataCollector.cpp: a fold with gcd over the periods of the probes, in
// microseconds, INT_MAX standing for "no period yet". WidePeriods has those above INT_MAX.

module BasePeriod {
  import opened Arithmetic

  const INT_MAX: nat := 0x7FFF_FFFF

  // ---------- divisibility ----------

  ghost predicate Divides(d: int, x: int) {
    exists k: int :: x == d * k
  }

  lemma DividesCombination(d: int, a: int, b: int, q: int)
    requires Divides(d, a) && Divides(d, b)
    ensures Divides(d, a + q * b)
  {
    var i: int :| a == d * i;
    var j: int :| b == d * j;
    assert a + q * b == d * (i + q * j);
  }

  lemma DividesSelf(d: int)
    ensures Divides(d, d) && Divides(d, 0)
  {
    assert d == d * 1 && 0 == d * 0;
  }

  lemma DividesTransitive(d: int, e: int, x: int)
    requires Divides(d, e) && Divides(e, x)
    ensures Divides(d, x)
  {
    var i: int :| e == d * i;
    var j: int :| x == e * j;
    assert x == d * (i * j);
  }

  // x - (x / p) * p, and a divisor of p and x divides it.
  lemma DividesRemainder(d: int, x: int, p: int)
    requires p > 0 && Divides(d, x) && Divides(d, p)
    ensures Divides(d, x % p)
  {
    DividesCombination(d, x, p, -(x / p));
    assert x % p == x + (-(x / p)) * p;
  }

  lemma DividesAtLeast(d: int, x: int)
    requires d > 0 && x > 0 && Divides(d, x)
    ensures d <= x
  {
    var k: int :| x == d * k;
    MulCancel(d, 0, k);
    MulAtLeast(k, d);
    assert d * k == k * d;
  }

  // ---------- gcd ----------

  function Gcd(val1: nat, val2: nat): (g: nat)
    requires val1 > 0 && val2 > 0
    ensures 0 < g <= val1 && g <= val2
    decreases if val1 < val2 then val1 else val2
  {
    var (hi, lo) := if val1 < val2 then (val2, val1) else (val1, val2);
    if hi % lo == 0 then lo else Gcd(lo, hi % lo)
  }

  // g is a common divisor, and every common divisor divides g.
  ghost predicate IsGcdOf(g: nat, ps: seq<nat>) {
    (forall p :: p in ps ==> Divides(g, p))
    && (forall d: nat :: (forall p :: p in ps ==> Divides(d, p)) ==> Divides(d, g))
  }

  lemma {:induction false} GcdDivides(a: nat, b: nat)
    requires a > 0 && b > 0
    ensures Divides(Gcd(a, b), a) && Divides(Gcd(a, b), b)
    decreases if a < b then a else b
  {
    var (hi, lo) := if a < b then (b, a) else (a, b);
    if hi % lo == 0 {
      DividesSelf(lo);
    } else {
      GcdDivides(lo, hi % lo);
    }
    DividesBack(Gcd(a, b), hi, lo);
  }

  lemma DividesBack(d: int, x: int, p: int)
    requires p > 0 && Divides(d, x % p) && Divides(d, p)
    ensures Divides(d, x)
  {
    DividesCombination(d, x % p, p, x / p);
    assert x == x % p + (x / p) * p;
  }

  lemma {:induction false} GcdGreatest(d: nat, a: nat, b: nat)
    requires a > 0 && b > 0 && Divides(d, a) && Divides(d, b)
    ensures Divides(d, Gcd(a, b))
    decreases if a < b then a else b
  {
    var (hi, lo) := if a < b then (b, a) else (a, b);
    if hi % lo != 0 {
      DividesRemainder(d, hi, lo);
      GcdGreatest(d, lo, hi % lo);
    }
  }

  // ---------- the constructor ----------

  // One turn of the constructor's loop; INT_MAX stands for "no period yet".
  function Join(m: nat, period: nat): (r: nat)
    requires 0 < m
    ensures 0 < r
  {
    if period == 0 then m else if m != INT_MAX then Gcd(m, period) else period
  }

  function Joined(periods: seq<nat>): (m: nat)
    ensures 0 < m
  {
    if periods == [] then INT_MAX else Join(Joined(periods[..|periods| - 1]), periods[|periods| - 1])
  }

  function MinPeriod(periods: seq<nat>): nat {
    if Joined(periods) == INT_MAX then 0 else Joined(periods)
  }

  function Nonzero(periods: seq<nat>): (r: seq<nat>)
    ensures forall p :: p in r <==> p in periods && p != 0
  {
    if periods == [] then []
    else
      var n := |periods| - 1;
      assert periods == periods[..n] + [periods[n]];
      Nonzero(periods[..n]) + (if periods[n] != 0 then [periods[n]] else [])
  }

  predicate InRange(periods: seq<nat>) {
    forall k :: 0 <= k < |periods| ==> periods[k] <= INT_MAX
  }

  lemma InitMembers(ps: seq<nat>)
    requires ps != []
    ensures ps == ps[..|ps| - 1] + [ps[|ps| - 1]] && ps[|ps| - 1] in ps
    ensures forall p :: p in ps[..|ps| - 1] ==> p in ps
  {
  }

  // The periods that the fold takes in: nonzero, from the first one below INT_MAX on.
  function Counted(periods: seq<nat>): (r: seq<nat>)
    ensures forall p :: p in r ==> p in periods && p != 0
    ensures r != [] ==> r[0] != INT_MAX
  {
    if periods == [] then []
    else
      var n := |periods| - 1;
      var c, p := Counted(periods[..n]), periods[n];
      if p == 0 || (c == [] && p == INT_MAX) then c else c + [p]
  }

  lemma GcdJoins(g: nat, p: nat, ps: seq<nat>)
    requires g > 0 && p > 0 && IsGcdOf(g, ps)
    ensures IsGcdOf(Gcd(g, p), ps + [p])
  {
    var r := Gcd(g, p);
    GcdDivides(g, p);
    forall x | x in ps + [p] ensures Divides(r, x) {
      if x in ps { DividesTransitive(r, g, x); }
    }
    forall d: nat | forall x :: x in ps + [p] ==> Divides(d, x) ensures Divides(d, r) {
      assert p in ps + [p];
      assert forall x :: x in ps ==> x in ps + [p];
      GcdGreatest(d, g, p);
    }
  }

  lemma {:induction false} JoinedIsGcd(periods: seq<nat>)
    requires InRange(periods)
    ensures Counted(periods) == [] ==> Joined(periods) == INT_MAX
    ensures Counted(periods) != [] ==> 0 < Joined(periods) < INT_MAX && IsGcdOf(Joined(periods), Counted(periods))
    decreases |periods|
  {
    if periods != [] {
      var n := |periods| - 1;
      var before, p := periods[..n], periods[n];
      InitMembers(periods);
      JoinedIsGcd(before);
      if Counted(before) == [] {
        if p != 0 && p != INT_MAX { DividesSelf(p); }
      } else if p != 0 {
        GcdJoins(Joined(before), p, Counted(before));
      }
    }
  }

  /** The base period is the greatest common divisor of the periods taken in; 0 when there is
      none. */
  lemma MinPeriodOfCounted(periods: seq<nat>)
    requires InRange(periods)
    ensures Counted(periods) == [] ==> MinPeriod(periods) == 0
    ensures Counted(periods) != [] ==> 0 < MinPeriod(periods) < INT_MAX && IsGcdOf(MinPeriod(periods), Counted(periods))
  {
    JoinedIsGcd(periods);
  }

  lemma {:induction false} SameCounted(lead: seq<nat>, rest: seq<nat>)
    requires forall k :: 0 <= k < |lead| ==> lead[k] == 0 || lead[k] == INT_MAX
    ensures Counted(lead + rest) == Counted(rest)
    decreases |lead| + |rest|
  {
    if rest != [] {
      var n := |rest| - 1;
      assert (lead + rest)[..|lead| + n] == lead + rest[..n];
      SameCounted(lead, rest[..n]);
    } else if lead != [] {
      var n := |lead| - 1;
      InitMembers(lead);
      assert lead + rest == lead && lead[..n] + rest == lead[..n];
      SameCounted(lead[..n], rest);
    }
  }

  // The fold sees the leading sentinels as nothing.
  lemma {:induction false} SameFold(lead: seq<nat>, rest: seq<nat>)
    requires forall k :: 0 <= k < |lead| ==> lead[k] == 0 || lead[k] == INT_MAX
    ensures Joined(lead + rest) == Joined(rest)
    decreases |lead| + |rest|
  {
    if rest != [] {
      var n := |rest| - 1;
      assert (lead + rest)[..|lead| + n] == lead + rest[..n];
      SameFold(lead, rest[..n]);
    } else if lead != [] {
      var n := |lead| - 1;
      InitMembers(lead);
      assert lead + rest == lead && lead[..n] + rest == lead[..n];
      SameFold(lead[..n], rest);
    }
  }

  /** Which periods are taken in: periods of INT_MAX are dropped, with any zeros between them,
      as long as no other period has been seen. */
  lemma SentinelIsDropped(lead: seq<nat>, rest: seq<nat>)
    requires forall k :: 0 <= k < |lead| ==> lead[k] == 0 || lead[k] == INT_MAX
    ensures Counted(lead + rest) == Counted(rest) && MinPeriod(lead + rest) == MinPeriod(rest)
  {
    SameCounted(lead, rest);
    SameFold(lead, rest);
  }

  // Every common divisor of the periods divides x.
  ghost predicate AllDivide(ps: seq<nat>, x: nat) {
    forall d: nat :: (forall p :: p in ps ==> Divides(d, p)) ==> Divides(d, x)
  }

  lemma {:induction false} CountedMembers(periods: seq<nat>)
    requires InRange(periods)
    ensures forall p :: p in Nonzero(periods) && p < INT_MAX ==> p in Counted(periods)
    ensures Nonzero(periods) == [] ==> Counted(periods) == []
    ensures Nonzero(periods) != [] && Nonzero(periods)[0] < INT_MAX ==> Counted(periods) == Nonzero(periods)
    decreases |periods|
  {
    if periods != [] {
      var n := |periods| - 1;
      InitMembers(periods);
      CountedMembers(periods[..n]);
    }
  }

  lemma ZeroDividesZero(x: int)
    requires x != 0
    ensures !Divides(0, x)
  {
  }

  // The nonzero periods are those taken in and INT_MAX.
  lemma GcdWithSentinel(m: nat, counted: seq<nat>, all: seq<nat>)
    requires m > 0 && IsGcdOf(m, counted)
    requires forall p :: p in all <==> p in counted || p == INT_MAX
    ensures IsGcdOf(m, all) <==> AllDivide(counted, INT_MAX)
  {
    assert INT_MAX in all;
    if AllDivide(counted, INT_MAX) {
      assert Divides(m, INT_MAX);
    }
    if IsGcdOf(m, all) {
      forall d: nat | forall p :: p in counted ==> Divides(d, p) ensures Divides(d, INT_MAX) {
        DividesTransitive(d, m, INT_MAX);
      }
    }
  }

  /** The base period is the greatest common divisor of all nonzero periods if and only if
      there is none, or the first of them is below INT_MAX, or every common divisor of the
      periods taken in divides INT_MAX, which is then dropped without harm. */
  lemma MinPeriodIsGcd(periods: seq<nat>)
    requires InRange(periods)
    ensures var all := Nonzero(periods);
            IsGcdOf(MinPeriod(periods), all)
            <==> all == [] || all[0] < INT_MAX || AllDivide(Counted(periods), INT_MAX)
  {
    var all, c, m := Nonzero(periods), Counted(periods), MinPeriod(periods);
    MinPeriodOfCounted(periods);
    CountedMembers(periods);
    if all == [] {
      forall d: nat ensures Divides(d, 0) { DividesSelf(d); }
    } else if all[0] < INT_MAX {
      assert c == all;
    } else if c == [] {
      assert all[0] in all && all[0] == INT_MAX;
      ZeroDividesZero(INT_MAX);
      assert !IsGcdOf(0, all);
      assert !AllDivide(c, INT_MAX);
    } else {
      assert all[0] in all && all[0] == INT_MAX;
      GcdWithSentinel(m, c, all);
    }
  }

  // Two greatest common divisors of the same set are equal.
  lemma GcdUnique(g: nat, h: nat, ps: seq<nat>, qs: seq<nat>)
    requires g > 0 && h > 0 && IsGcdOf(g, ps) && IsGcdOf(h, qs)
    requires forall p :: p in ps <==> p in qs
    ensures g == h
  {
    DividesAtLeast(g, h);
    DividesAtLeast(h, g);
  }

  // One of two fillings of the same set of periods takes INT_MAX in, the other does not.
  lemma GcdOneSentinel(g: nat, ps: seq<nat>, h: nat, qs: seq<nat>)
    requires g > 0 && h > 0 && IsGcdOf(g, ps) && IsGcdOf(h, qs)
    requires forall p :: p in ps <==> p in qs || p == INT_MAX
    ensures g == h <==> AllDivide(qs, INT_MAX)
  {
    if AllDivide(qs, INT_MAX) {
      assert Divides(h, INT_MAX);
      assert Divides(h, g) && Divides(g, h);
      DividesAtLeast(g, h);
      DividesAtLeast(h, g);
    }
    if g == h {
      assert INT_MAX in ps;
      forall d: nat | forall p :: p in qs ==> Divides(d, p) ensures Divides(d, INT_MAX) {
        DividesTransitive(d, h, INT_MAX);
      }
    }
  }

  // The nonzero periods below INT_MAX, as the fold takes them in from either list.
  lemma CountedOfSameSet(ps: seq<nat>, qs: seq<nat>)
    requires InRange(ps) && InRange(qs) && forall p :: p != 0 ==> (p in ps <==> p in qs)
    ensures forall p :: p != INT_MAX ==> (p in Counted(ps) <==> p in Counted(qs))
    ensures Counted(ps) == [] <==> Counted(qs) == []
  {
    CountedMembers(ps);
    CountedMembers(qs);
    var us, vs := Counted(ps), Counted(qs);
    assert us != [] ==> us[0] in us;
    assert vs != [] ==> vs[0] in vs;
  }

  /** The order of the probes, exactly. For two lists with the same nonzero periods: the base
      periods are equal if and only if INT_MAX is taken in from both or from none of them, or
      every common divisor of the periods below INT_MAX divides INT_MAX. So for periods below
      INT_MAX neither order nor repetition matters. */
  lemma MinPeriodOrder(ps: seq<nat>, qs: seq<nat>)
    requires InRange(ps) && InRange(qs) && forall p :: p != 0 ==> (p in ps <==> p in qs)
    ensures MinPeriod(ps) == MinPeriod(qs)
       <==> || (INT_MAX in Counted(ps) <==> INT_MAX in Counted(qs))
            || AllDivide(if INT_MAX in Counted(ps) then Counted(qs) else Counted(ps), INT_MAX)
  {
    var us, vs := Counted(ps), Counted(qs);
    MinPeriodOfCounted(ps);
    MinPeriodOfCounted(qs);
    CountedOfSameSet(ps, qs);
    if us != [] {
      if INT_MAX in us <==> INT_MAX in vs {
        GcdUnique(MinPeriod(ps), MinPeriod(qs), us, vs);
      } else if INT_MAX in us {
        GcdOneSentinel(MinPeriod(ps), us, MinPeriod(qs), vs);
      } else {
        GcdOneSentinel(MinPeriod(qs), vs, MinPeriod(ps), us);
      }
    }
  }

  /** It does matter with INT_MAX: the same two periods in either order. */
  lemma SentinelBreaksOrder()
    ensures MinPeriod([INT_MAX, 6]) == 6 && MinPeriod([6, INT_MAX]) == 1
  {
    assert [INT_MAX, 6][..1] == [INT_MAX] && [INT_MAX][..0] == [];
    assert [6, INT_MAX][..1] == [6] && [6][..0] == [];
    assert Joined([INT_MAX]) == INT_MAX && Joined([6]) == 6;
    assert INT_MAX % 6 == 1 && 6 % 1 == 0;
  }
}
