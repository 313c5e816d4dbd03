// The base period for all 32-bit periods: above INT_MAX they are negative ints in gcd.

module WidePeriods {
  import opened Arithmetic
  import opened BasePeriod

  datatype Result<T> = Returns(value: T) | Hangs

  predicate Unsigned(periods: seq<nat>) {
    forall k :: 0 <= k < |periods| ==> periods[k] < WORD
  }

  // The conversions between unsigned int and int.
  function AsInt(x: nat): int { if x <= INT_MAX then x else x - WORD }

  function AsUnsigned(x: int): nat { x % WORD }

  // ---------- gcd, call by call ----------

  // The % of C: the sign is that of the dividend.
  function Remainder(x: int, y: int): int
    requires y != 0
  {
    var n := if y < 0 then -y else y;
    if x >= 0 then x % n else -((-x) % n)
  }

  datatype Turn = Done(g: int) | Again(val1: int, val2: int)

  // The body of gcd, up to its own call of gcd.
  function GcdTurn(val1: int, val2: int): (t: Turn)
    requires val1 != 0 && val2 != 0
    ensures t.Again? ==> t.val1 != 0 && t.val2 != 0
  {
    var (hi, lo) := if val1 < val2 then (val2, val1) else (val1, val2);
    var ret := Remainder(hi, lo);
    if ret == 0 then Done(lo) else Again(lo, ret)
  }

  // What gcd returns with at most n calls.
  function GcdWithin(n: nat, val1: int, val2: int): Result<int>
    requires val1 != 0 && val2 != 0
  {
    if n == 0 then Hangs
    else
      match GcdTurn(val1, val2)
      case Done(g) => Returns(g)
      case Again(a, b) => GcdWithin(n - 1, a, b)
  }

  // With a negative argument gcd returns the smaller one, if it divides the other, or never.
  function IntGcd(val1: int, val2: int): Result<int>
    requires val1 != 0 && val2 != 0
  {
    if val1 > 0 && val2 > 0 then Returns(Gcd(val1, val2))
    else
      var (hi, lo) := if val1 < val2 then (val2, val1) else (val1, val2);
      if hi % -lo == 0 then Returns(lo) else Hangs
  }

  lemma {:induction false} PositiveReturns(a: nat, b: nat) returns (n: nat)
    requires a > 0 && b > 0
    ensures GcdWithin(n, a, b) == Returns(Gcd(a, b))
    decreases if a < b then a else b
  {
    var (hi, lo) := if a < b then (b, a) else (a, b);
    if hi % lo == 0 {
      n := 1;
      assert GcdTurn(a, b) == Done(lo);
    } else {
      var m := PositiveReturns(lo, hi % lo);
      n := m + 1;
      assert GcdTurn(a, b) == Again(lo, hi % lo);
    }
  }

  lemma RoundTurn(lo: int, r: int)
    requires lo < 0 && r != 0 && lo < r < -lo
    ensures GcdTurn(lo, r) == Again(lo, r)
  {
    DivMod(if r > 0 then r else -r, -lo, 0, if r > 0 then r else -r);
  }

  // lo is negative and larger than r in size: gcd goes round in a circle.
  lemma {:induction false} GoesRound(n: nat, lo: int, r: int)
    requires lo < 0 && r != 0 && lo < r < -lo
    ensures GcdWithin(n, lo, r) == Hangs
  {
    if n > 0 {
      RoundTurn(lo, r);
      GoesRound(n - 1, lo, r);
    }
  }

  lemma NegativeTurn(val1: int, val2: int)
    requires val1 != 0 && val2 != 0 && (val1 < 0 || val2 < 0)
    ensures var (hi, lo) := if val1 < val2 then (val2, val1) else (val1, val2);
            if hi % -lo == 0 then GcdTurn(val1, val2) == Done(lo)
            else GcdTurn(val1, val2).Again? && GcdTurn(val1, val2).val1 == lo && lo < GcdTurn(val1, val2).val2 < -lo
  {
    var (hi, lo) := if val1 < val2 then (val2, val1) else (val1, val2);
    if hi < 0 {
      if hi == lo {
        DivMod(-hi, -lo, 1, 0);
        DivMod(hi, -lo, -1, 0);
      } else {
        DivMod(-hi, -lo, 0, -hi);
        DivMod(hi, -lo, -1, hi - lo);
      }
    }
  }

  lemma {:induction false} WithinMore(n: nat, m: nat, val1: int, val2: int)
    requires val1 != 0 && val2 != 0 && n <= m && GcdWithin(n, val1, val2).Returns?
    ensures GcdWithin(m, val1, val2) == GcdWithin(n, val1, val2)
    decreases n
  {
    match GcdTurn(val1, val2) {
      case Done(g) =>
      case Again(a, b) => WithinMore(n - 1, m - 1, a, b);
    }
  }

  lemma DoneWithin(n: nat, val1: int, val2: int, g: int)
    requires val1 != 0 && val2 != 0 && GcdTurn(val1, val2) == Done(g)
    ensures GcdWithin(n, val1, val2) == if n == 0 then Hangs else Returns(g)
  {
  }

  lemma DoneOnly(val1: int, val2: int, lo: int, g: int)
    requires val1 != 0 && val2 != 0 && GcdTurn(val1, val2) == Done(lo)
    ensures (exists n: nat :: GcdWithin(n, val1, val2) == Returns(g)) <==> g == lo
  {
    DoneWithin(1, val1, val2, lo);
    if n: nat :| GcdWithin(n, val1, val2) == Returns(g) { DoneWithin(n, val1, val2, lo); }
  }

  /** On every pair of ints but 0: the recursion of gcd ends, and with which value, exactly as
      IntGcd says. */
  lemma GcdReturns(val1: int, val2: int, g: int)
    requires val1 != 0 && val2 != 0
    ensures (exists n: nat :: GcdWithin(n, val1, val2) == Returns(g)) <==> IntGcd(val1, val2) == Returns(g)
  {
    if val1 > 0 && val2 > 0 {
      var m := PositiveReturns(val1, val2);
      forall n: nat | GcdWithin(n, val1, val2) == Returns(g) ensures g == Gcd(val1, val2) {
        if n <= m { WithinMore(n, m, val1, val2); } else { WithinMore(m, n, val1, val2); }
      }
    } else {
      NegativeTurn(val1, val2);
      match GcdTurn(val1, val2) {
        case Done(lo) => DoneOnly(val1, val2, lo, g);
        case Again(lo, r) =>
          forall n: nat ensures GcdWithin(n, val1, val2) == Hangs {
            if n > 0 { GoesRound(n - 1, lo, r); }
          }
      }
    }
  }

  // ---------- the constructor ----------

  function NextPeriod(m: nat, period: nat): (r: Result<nat>)
    requires 0 < m < WORD && period < WORD
    ensures r.Returns? ==> 0 < r.value < WORD
  {
    if period == 0 then Returns(m)
    else if m == INT_MAX then Returns(period)
    else
      match IntGcd(AsInt(m), AsInt(period))
      case Hangs => Hangs
      case Returns(g) => Returns(AsUnsigned(g))
  }

  function Found(periods: seq<nat>): (r: Result<nat>)
    requires Unsigned(periods)
    ensures r.Returns? ==> 0 < r.value < WORD
  {
    if periods == [] then Returns(INT_MAX)
    else
      match Found(periods[..|periods| - 1])
      case Hangs => Hangs
      case Returns(m) => NextPeriod(m, periods[|periods| - 1])
  }

  // The base period, unless the constructor never returns.
  function PeriodOf(periods: seq<nat>): (r: Result<nat>)
    requires Unsigned(periods)
    ensures r.Returns? ==> r.value < WORD
  {
    match Found(periods)
    case Hangs => Hangs
    case Returns(m) => Returns(if m == INT_MAX then 0 else m)
  }

  lemma {:induction false} FoundPrefix(periods: seq<nat>, n: nat)
    requires Unsigned(periods) && n <= |periods| && Found(periods).Returns?
    ensures Found(periods[..n]).Returns?
    decreases |periods|
  {
    if n == |periods| {
      assert periods[..n] == periods;
    } else {
      assert periods[..|periods| - 1][..n] == periods[..n];
      FoundPrefix(periods[..|periods| - 1], n);
    }
  }

  lemma FoundStep(periods: seq<nat>, n: nat, m: nat)
    requires Unsigned(periods) && n < |periods| && Found(periods).Returns? && Found(periods[..n]) == Returns(m)
    ensures 0 < m < WORD && NextPeriod(m, periods[n]).Returns?
    ensures Found(periods[..n + 1]) == NextPeriod(m, periods[n])
    ensures periods[n] == 0 ==> Found(periods[..n + 1]) == Returns(m)
  {
    FoundPrefix(periods, n + 1);
    assert periods[..n + 1][..n] == periods[..n];
  }

  lemma NarrowNext(m: nat, p: nat)
    requires 0 < m <= INT_MAX && p <= INT_MAX
    ensures NextPeriod(m, p) == Returns(Join(m, p)) && Join(m, p) <= INT_MAX
  {
  }

  /** For periods up to INT_MAX the constructor returns, with the base period of BasePeriod. */
  lemma {:induction false} NarrowPeriods(periods: seq<nat>)
    requires InRange(periods)
    ensures Found(periods) == Returns(Joined(periods)) && PeriodOf(periods) == Returns(MinPeriod(periods))
    ensures Joined(periods) <= INT_MAX
    decreases |periods|
  {
    if periods != [] {
      var n := |periods| - 1;
      NarrowPeriods(periods[..n]);
      NarrowNext(Joined(periods[..n]), periods[n]);
    }
  }

  // Every period above INT_MAX is the only one above INT_MAX, and as an int it divides the others.
  ghost predicate Agree(ps: seq<nat>) {
    forall p, q :: p in ps && q in ps && p > INT_MAX ==> q == p || (q <= INT_MAX && Divides(WORD - p, q))
  }

  ghost predicate Narrow(ps: seq<nat>) {
    forall p :: p in ps ==> p <= INT_MAX
  }

  lemma NarrowAppended(ps: seq<nat>, p: nat)
    ensures Narrow(ps + [p]) <==> Narrow(ps) && p <= INT_MAX
  {
    assert p in ps + [p] && forall q :: q in ps ==> q in ps + [p];
  }

  lemma {:induction false} NarrowCounted(periods: seq<nat>)
    ensures Narrow(Counted(periods)) <==> InRange(periods)
    decreases |periods|
  {
    if periods != [] {
      var n := |periods| - 1;
      var front, p := periods[..n], periods[n];
      NarrowCounted(front);
      NarrowAppended(Counted(front), p);
      assert periods == front + [p];
      assert InRange(periods) <==> InRange(front) && p <= INT_MAX;
    }
  }

  lemma DividesMod(d: int, x: int)
    requires d > 0
    ensures Divides(d, x) <==> x % d == 0
  {
    if x % d == 0 { assert x == d * (x / d); }
    if Divides(d, x) {
      var k: int :| x == d * k;
      DivMod(x, d, k, 0);
    }
  }

  // The gcd m of some narrow periods and a wide one.
  lemma FirstWide(m: nat, ps: seq<nat>, p: nat)
    requires 0 < m < INT_MAX && Narrow(ps) && IsGcdOf(m, ps) && INT_MAX < p < WORD
    ensures NextPeriod(m, p) == if Agree(ps + [p]) then Returns(p) else Hangs
  {
    var n := WORD - p;
    DividesMod(n, m);
    if Divides(n, m) {
      forall q | q in ps ensures Divides(n, q) { DividesTransitive(n, m, q); }
      assert Agree(ps + [p]);
    } else if Agree(ps + [p]) {
      assert p in ps + [p];
      forall q | q in ps ensures Divides(n, q) { assert q in ps + [p]; }
      assert false;
    }
  }

  // A wide one so far, and a further period.
  lemma NextAfterWide(m: nat, ps: seq<nat>, p: nat)
    requires INT_MAX < m < WORD && m in ps && Agree(ps) && 0 < p < WORD
    ensures NextPeriod(m, p) == if Agree(ps + [p]) then Returns(m) else Hangs
  {
    var n := WORD - m;
    assert m in ps + [p] && p in ps + [p];
    if p <= INT_MAX {
      DividesMod(n, p);
      if Divides(n, p) {
        forall x, q | x in ps + [p] && q in ps + [p] && x > INT_MAX
          ensures q == x || (q <= INT_MAX && Divides(WORD - x, q)) { assert x == m; }
      }
    } else {
      NegativePair(AsInt(m), AsInt(p));
      if p == m {
        forall x, q | x in ps + [p] && q in ps + [p] && x > INT_MAX
          ensures q == x || (q <= INT_MAX && Divides(WORD - x, q)) { assert x == m; }
      }
    }
  }

  lemma NegativePair(a: int, b: int)
    requires a < 0 && b < 0
    ensures IntGcd(a, b) == if a == b then Returns(a) else Hangs
  {
    var (hi, lo) := if a < b then (b, a) else (a, b);
    if a == b { DivMod(hi, -lo, -1, 0); } else { DivMod(hi, -lo, -1, hi - lo); }
  }

  lemma AgreePrefix(ps: seq<nat>, p: nat)
    requires Agree(ps + [p])
    ensures Agree(ps)
  {
    assert forall q :: q in ps ==> q in ps + [p];
  }

  // Found is what the counted periods say.
  ghost predicate Exact(found: Result<nat>, counted: seq<nat>) {
    && (found.Returns? <==> Agree(counted))
    && forall p :: p in counted && p > INT_MAX && found.Returns? ==> found == Returns(p)
  }

  lemma {:induction false} FoundExactly(periods: seq<nat>)
    requires Unsigned(periods)
    ensures Exact(Found(periods), Counted(periods))
    decreases |periods|
  {
    NarrowCounted(periods);
    if InRange(periods) {
      NarrowPeriods(periods);
    } else {
      var n := |periods| - 1;
      var front, p := periods[..n], periods[n];
      assert periods == front + [p];
      FoundExactly(front);
      if p == 0 {
      } else if Counted(front) == [] {
        NarrowCounted(front);
        OnlyWide(front, p);
      } else if Agree(Counted(front)) {
        AddPeriod(front, p);
      } else if Agree(Counted(front) + [p]) {
        AgreePrefix(Counted(front), p);
      }
    }
  }

  lemma OnlyWide(front: seq<nat>, p: nat)
    requires InRange(front) && Counted(front) == [] && INT_MAX < p < WORD
    ensures Found(front) == Returns(INT_MAX) && Exact(NextPeriod(INT_MAX, p), [p])
  {
    NarrowPeriods(front);
    JoinedIsGcd(front);
  }

  lemma AddPeriod(front: seq<nat>, p: nat)
    requires Unsigned(front) && 0 < p < WORD && Counted(front) != [] && Agree(Counted(front))
    requires Exact(Found(front), Counted(front)) && (InRange(front) ==> p > INT_MAX)
    ensures Exact(NextPeriod(Found(front).value, p), Counted(front) + [p])
  {
    var c, m := Counted(front), Found(front).value;
    NarrowCounted(front);
    if InRange(front) {
      NarrowPeriods(front);
      JoinedIsGcd(front);
      FirstWide(m, c, p);
    } else {
      assert m in c;
      NextAfterWide(m, c, p);
      forall q | q in c + [p] && q > INT_MAX && Agree(c + [p]) ensures q == m {
        assert m in c + [p];
      }
    }
  }

  /** All unsigned periods. The constructor returns if and only if all counted periods above
      INT_MAX are equal and, as an int, divide every other counted one; with such a period it is
      the base period. */
  lemma ConstructorReturns(periods: seq<nat>)
    requires Unsigned(periods)
    ensures PeriodOf(periods).Returns? <==> Agree(Counted(periods))
    ensures forall p :: p in Counted(periods) && p > INT_MAX && PeriodOf(periods).Returns? ==> PeriodOf(periods) == Returns(p)
  {
    FoundExactly(periods);
  }

  // A period that is neither 0 nor INT_MAX counts.
  lemma {:induction false} Kept(periods: seq<nat>, p: nat)
    requires p in periods && p != 0 && p != INT_MAX
    ensures p in Counted(periods)
    decreases |periods|
  {
    var n := |periods| - 1;
    assert periods == periods[..n] + [periods[n]];
    if p != periods[n] { Kept(periods[..n], p); }
  }

  lemma WideCounted(periods: seq<nat>) returns (p: nat)
    requires Unsigned(periods) && !InRange(periods) && PeriodOf(periods).Returns?
    ensures p > INT_MAX && p in periods && PeriodOf(periods) == Returns(p)
  {
    var k :| 0 <= k < |periods| && periods[k] > INT_MAX;
    p := periods[k];
    Kept(periods, p);
    ConstructorReturns(periods);
  }

  /** With a period above INT_MAX the base period is the greatest common divisor of all nonzero
      ones if and only if they are all equal. */
  lemma WideIsGcd(periods: seq<nat>)
    requires Unsigned(periods) && !InRange(periods) && PeriodOf(periods).Returns?
    ensures var g := PeriodOf(periods).value;
            IsGcdOf(g, Nonzero(periods)) <==> forall p :: p in Nonzero(periods) ==> p == g
  {
    var g := WideCounted(periods);
    if IsGcdOf(g, Nonzero(periods)) {
      forall p | p in Nonzero(periods) ensures p == g { OnlyMultiple(g, p); }
    } else if forall p :: p in Nonzero(periods) ==> p == g {
      assert g in Nonzero(periods);
      DividesSelf(g);
    }
  }

  lemma OnlyMultiple(g: nat, p: nat)
    requires INT_MAX < g && 0 < p < WORD && Divides(g, p)
    ensures p == g
  {
    var k: int :| p == g * k;
    MulCancel(g, 0, k);
    if k >= 2 { MulMonotone(g, 2, k); }
  }

  /** And the order matters only for the question whether the constructor returns: two lists
      with the same nonzero periods agree if and only if it returns for both or for none. */
  lemma WideOrder(ps: seq<nat>, qs: seq<nat>)
    requires Unsigned(ps) && Unsigned(qs) && !InRange(ps) && forall p :: p != 0 ==> (p in ps <==> p in qs)
    ensures PeriodOf(ps) == PeriodOf(qs) <==> (Agree(Counted(ps)) <==> Agree(Counted(qs)))
  {
    ConstructorReturns(ps);
    ConstructorReturns(qs);
    if PeriodOf(ps).Returns? {
      var p := WideCounted(ps);
      Kept(qs, p);
    }
  }

  /** Both happen: two periods that the constructor does not survive, and a pair above INT_MAX
      that it does. */
  lemma WideExamples()
    ensures PeriodOf([6, WORD - 4]) == Hangs && PeriodOf([8, WORD - 4]) == Returns(WORD - 4)
  {
    assert [6, WORD - 4][..1] == [6] && [6][..0] == [] && [8, WORD - 4][..1] == [8] && [8][..0] == [];
    assert Found([6]) == Returns(6) && Found([8]) == Returns(8);
    assert 6 % 4 == 2 && 8 % 4 == 0;
  }
}
