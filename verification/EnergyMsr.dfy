// The energy probe of probes/libenergymsr/libenergymsr.c: an energy value without bound rebuilt
// from a register whose low 32 bits wrap. Energies are real multiples of the socket's unit.

module EnergyMsr {
  import opened Arithmetic

  datatype Option<T> = None | Some(value: T)

  // ---------- subvalue: bit operations on 64-bit values ----------

  // a & b on n bits, bit by bit.
  function And(a: nat, b: nat, n: nat): nat {
    if n == 0 then 0 else (a % 2) * (b % 2) + 2 * And(a / 2, b / 2, n - 1)
  }

  // ~a, a << k and a >> k in n-bit words.
  function Not(a: nat, n: nat): int { Pow2(n) - 1 - a }

  function Shl(a: nat, k: nat, n: nat): nat { (a * Pow2(k)) % Pow2(n) }

  function Shr(a: nat, k: nat): nat {
    QuotientNat(a, Pow2(k));
    a / Pow2(k)
  }

  lemma QuotientNat(a: nat, d: int)
    requires d >= 1
    ensures a / d >= 0
  {
  }

  // ~(all ones << length)
  function Mask(length: nat, n: nat): (m: nat)
    requires length < n
    ensures m == Pow2(length) - 1
  {
    ShiftedOnes(length, n);
    Not(Shl(Pow2(n) - 1, length, n), n)
  }

  // (val >> pos) & ~(0xFFFFFFFFFFFFFFFF << length); the shifts are defined below 64.
  function Subvalue(val: nat, pos: nat, length: nat): nat
    requires pos < 64 && length < 64
  {
    And(Shr(val, pos), Mask(length, 64), 64)
  }

  lemma OnesTimes(p: int, h: int, m: int)
    requires p >= 1 && h >= 1 && m == p * (2 * h)
    ensures p < m && ((m - 1) * p) % m == m - p
  {
    MulAtLeast(2 * h, p);
    assert p * (2 * h) == (2 * h) * p;
    assert (2 * h) * p == h * p + h * p;
    MulAtLeast(h, p);
    OnesProduct(m, p);
    DivMod((m - 1) * p, m, p - 1, m - p);
  }

  lemma OnesProduct(m: int, p: int)
    ensures (m - 1) * p == (p - 1) * m + (m - p)
  {
    assert (m - 1) * p == m * p - p;
    assert (p - 1) * m == p * m - m;
    assert m * p == p * m;
  }

  lemma ShiftedOnes(length: nat, n: nat)
    requires length < n
    ensures Pow2(length) < Pow2(n)
    ensures Shl(Pow2(n) - 1, length, n) == Pow2(n) - Pow2(length)
  {
    Pow2Add(length, n - length);
    OnesTimes(Pow2(length), Pow2(n - length - 1), Pow2(n));
  }

  // Halving a number and its remainder modulo 2 * p.
  lemma HalfMod(x: nat, p: nat)
    requires p >= 1
    ensures x % (2 * p) == x % 2 + 2 * ((x / 2) % p)
  {
    var h := x / 2;
    var q, r := h / p, h % p;
    assert h == q * p + r;
    assert q * (2 * p) == 2 * (q * p);
    DivMod(x, 2 * p, q, 2 * r + x % 2);
  }

  lemma {:induction false} AndMask(x: nat, length: nat, n: nat)
    requires length <= n
    ensures And(x, Pow2(length) - 1, n) == x % Pow2(length)
  {
    if n == 0 {
    } else if length == 0 {
      AndZero(x, n);
    } else {
      AndMask(x / 2, length - 1, n - 1);
      AndOdd(x, Pow2(length - 1), n);
    }
  }

  // One more bit of the mask.
  lemma AndOdd(x: nat, p: nat, n: nat)
    requires n > 0 && p > 0 && And(x / 2, p - 1, n - 1) == (x / 2) % p
    ensures And(x, 2 * p - 1, n) == x % (2 * p)
  {
    assert (2 * p - 1) / 2 == p - 1 && (2 * p - 1) % 2 == 1;
    HalfMod(x, p);
  }

  lemma {:induction false} AndZero(x: nat, n: nat)
    ensures And(x, 0, n) == 0
  {
    if n > 0 { AndZero(x / 2, n - 1); }
  }

  lemma MaskField(x: nat, length: nat, n: nat)
    requires length < n
    ensures And(x, Mask(length, n), n) == x % Pow2(length)
  {
    AndMask(x, length, n);
  }

  /** subvalue extracts the field of the given length at the given position. */
  lemma SubvalueIsField(val: nat, pos: nat, length: nat)
    requires pos < 64 && length < 64
    ensures Subvalue(val, pos, length) == (val / Pow2(pos)) % Pow2(length)
  {
    MaskField(Shr(val, pos), length, 64);
  }

  // The energy status counter is the low 32 bits of the register.
  method LowWord(raw: nat) returns (ticks: nat)
    ensures ticks == raw % WORD
  {
    WordIsPow2();
    SubvalueIsField(raw, 0, 32);
    ticks := Subvalue(raw, 0, 32);
  }

  // ---------- one socket ----------

  // The energy of a number of ticks on one socket.
  function Times(u: real): int -> real { n => n as real * u }

  function Net(a: int, b: int, c: int): int { a + b - c }

  // What is used of a conversion from ticks to energy: it is linear and grows.
  ghost predicate Linear(f: int -> real) {
    && (forall a, b :: a < b <==> f(a) < f(b))
    && (forall a, b, c :: f(Net(a, b, c)) == f(a) + f(b) - f(c))
  }

  lemma TimesIsLinear(u: real)
    requires u > 0.0
    ensures Linear(Times(u))
  {
    var f := Times(u);
    forall a: int, b: int ensures a < b <==> f(a) < f(b) { ScaleOrder(a, b, u); }
    forall a: int, b: int, c: int ensures f(Net(a, b, c)) == f(a) + f(b) - f(c) { ScaleNet(a, b, c, u); }
  }

  lemma ScaleNet(a: int, b: int, c: int, u: real)
    ensures Net(a, b, c) as real * u == a as real * u + b as real * u - c as real * u
  {
    assert Net(a, b, c) as real == a as real + b as real - c as real;
  }

  lemma ScaleOrder(a: int, b: int, u: real)
    requires u > 0.0
    ensures a as real * u < b as real * u <==> a < b
  {
  }

  datatype Socket = Socket(lastE: real, refE: real, ovfCnt: nat, res: real)

  // A read of the register: the raw value, or None when pread fails.
  type Read = Option<nat>

  function StartSocket(f: int -> real, k: Socket, read: Read): Socket {
    match read
    case None => k
    case Some(raw) => var e := f(raw % WORD); Socket(e, e, 0, 0.0)
  }

  // ovfCnt is a 32-bit unsigned counter.
  function UpdateSocket(f: int -> real, k: Socket, read: Read): Socket {
    match read
    case None => k
    case Some(raw) =>
      var e := f(raw % WORD);
      k.(ovfCnt := if e < k.lastE then (k.ovfCnt + 1) % WORD else k.ovfCnt, lastE := e)
  }

  function SinceRef(f: int -> real, k: Socket): real {
    k.lastE + f(k.ovfCnt * WORD) - k.refE
  }

  function StopSocket(f: int -> real, k: Socket, read: Read): Socket {
    var k' := UpdateSocket(f, k, read);
    k'.(res := SinceRef(f, k'))
  }

  // ---------- the probe over all sockets ----------

  class Probe {
    const nbCPUs: nat
    const eUnits: array<real>
    const lastE: array<real>
    const refE: array<real>
    const ovfCnt: array<nat>
    const res: array<real>

    ghost predicate Valid()
      reads this
    {
      && eUnits.Length == lastE.Length == refE.Length == ovfCnt.Length == res.Length == nbCPUs
      && eUnits != lastE && eUnits != refE && eUnits != res
      && lastE != refE && lastE != res && refE != res
    }

    ghost function At(s: nat): Socket
      requires Valid() && s < nbCPUs
      reads this, lastE, refE, ovfCnt, res
    {
      Socket(lastE[s], refE[s], ovfCnt[s], res[s])
    }

    // The storage is not initialised; units are what the power-unit register gave.
    constructor (units: seq<real>)
      ensures Valid() && nbCPUs == |units| && eUnits[..] == units
      ensures fresh(eUnits) && fresh(lastE) && fresh(refE) && fresh(ovfCnt) && fresh(res)
    {
      nbCPUs := |units|;
      var n := |units|;
      eUnits := new real[n](i requires 0 <= i < n => units[i]);
      lastE := new real[n];
      refE := new real[n];
      ovfCnt := new nat[n];
      res := new real[n];
    }

    method Start(samples: seq<Read>)
      requires Valid() && |samples| == nbCPUs
      modifies lastE, refE, ovfCnt, res
      ensures forall s: nat :: s < nbCPUs ==> At(s) == StartSocket(Times(eUnits[s]), old(At(s)), samples[s])
    {
      for s := 0 to nbCPUs
        invariant forall j: nat :: j < s ==> At(j) == StartSocket(Times(eUnits[j]), old(At(j)), samples[j])
        invariant forall j: nat :: s <= j < nbCPUs ==> At(j) == old(At(j))
      {
        match samples[s] {
          case None =>
          case Some(raw) =>
            var base := LowWord(raw);
            refE[s] := base as real * eUnits[s];
            lastE[s] := refE[s];
            ovfCnt[s] := 0;
            res[s] := 0.0;
        }
      }
    }

    method Update(samples: seq<Read>)
      requires Valid() && |samples| == nbCPUs
      modifies lastE, ovfCnt
      ensures forall s: nat :: s < nbCPUs ==> At(s) == UpdateSocket(Times(eUnits[s]), old(At(s)), samples[s])
    {
      for s := 0 to nbCPUs
        invariant forall j: nat :: j < s ==> At(j) == UpdateSocket(Times(eUnits[j]), old(At(j)), samples[j])
        invariant forall j: nat :: s <= j < nbCPUs ==> At(j) == old(At(j))
      {
        match samples[s] {
          case None =>
          case Some(raw) =>
            var base := LowWord(raw);
            var energy := base as real * eUnits[s];
            if energy < lastE[s] {
              ovfCnt[s] := (ovfCnt[s] + 1) % WORD;
            }
            lastE[s] := energy;
        }
      }
    }

    method Stop(samples: seq<Read>)
      requires Valid() && |samples| == nbCPUs
      modifies lastE, ovfCnt, res
      ensures forall s: nat :: s < nbCPUs ==> At(s) == StopSocket(Times(eUnits[s]), old(At(s)), samples[s])
    {
      Update(samples);
      for s := 0 to nbCPUs
        invariant forall j: nat :: j < s ==> At(j) == StopSocket(Times(eUnits[j]), old(At(j)), samples[j])
        invariant forall j: nat :: s <= j < nbCPUs ==> At(j) == UpdateSocket(Times(eUnits[j]), old(At(j)), samples[j])
      {
        res[s] := lastE[s] + (ovfCnt[s] * WORD) as real * eUnits[s] - refE[s];
      }
    }
  }

  // ---------- what a run measures ----------

  // A read together with the true tick count at that moment.
  datatype Sample = Failed | Good(raw: nat, truth: nat)

  function ReadOf(x: Sample): Read {
    if x.Good? then Some(x.raw) else None
  }

  // The register shows the true count modulo 2^32 (its high half is anything).
  predicate Faithful(x: Sample) {
    x.Good? ==> x.raw % WORD == x.truth % WORD
  }

  // Updates in sequence.
  function Updates(f: int -> real, k: Socket, xs: seq<Sample>): Socket
    decreases |xs|
  {
    if xs == [] then k else Updates(f, UpdateSocket(f, k, ReadOf(xs[0])), xs[1..])
  }

  function Next(t: nat, x: Sample): nat { if x.Good? then x.truth else t }

  // The true count at the last successful read, starting from t.
  function LastTruth(t: nat, xs: seq<Sample>): nat
    decreases |xs|
  {
    if xs == [] then t else LastTruth(Next(t, xs[0]), xs[1..])
  }

  predicate Ordered(t: nat, xs: seq<Sample>)
    decreases |xs|
  {
    xs == [] || (t <= Next(t, xs[0]) && Ordered(Next(t, xs[0]), xs[1..]))
  }

  // Fewer than 2^32 ticks between successive successful reads.
  predicate SmallGaps(t: nat, xs: seq<Sample>)
    decreases |xs|
  {
    xs == [] || (Next(t, xs[0]) - t < WORD && SmallGaps(Next(t, xs[0]), xs[1..]))
  }

  // Each gap counted modulo 2^32, and the number of observed overflows.
  function Seen(t: nat, xs: seq<Sample>): nat
    decreases |xs|
  {
    if xs == [] then 0 else (Next(t, xs[0]) - t) % WORD + Seen(Next(t, xs[0]), xs[1..])
  }

  function Overflows(t: nat, xs: seq<Sample>): nat
    decreases |xs|
  {
    if xs == [] then 0
    else (if Next(t, xs[0]) % WORD < t % WORD then 1 else 0) + Overflows(Next(t, xs[0]), xs[1..])
  }

  // A gap modulo 2^32 from the two remainders.
  lemma GapMod(t: nat, n: nat)
    ensures (n - t) % WORD == n % WORD - t % WORD + (if n % WORD < t % WORD then WORD else 0)
  {
  }

  lemma {:induction false} SeenFromEnds(t: nat, xs: seq<Sample>)
    ensures t % WORD + Seen(t, xs) == LastTruth(t, xs) % WORD + WORD * Overflows(t, xs)
    decreases |xs|
  {
    if xs != [] {
      GapMod(t, Next(t, xs[0]));
      SeenFromEnds(Next(t, xs[0]), xs[1..]);
    }
  }

  lemma {:induction false} SeenAtMost(t: nat, xs: seq<Sample>)
    requires Ordered(t, xs)
    ensures t + Seen(t, xs) <= LastTruth(t, xs)
    ensures t + Seen(t, xs) == LastTruth(t, xs) <==> SmallGaps(t, xs)
    decreases |xs|
  {
    if xs != [] {
      SeenAtMost(Next(t, xs[0]), xs[1..]);
    }
  }

  // The socket counted in ticks instead of energy.
  datatype Counter = Counter(last: nat, ref: nat, ovf: nat)

  function Begin(raw: nat): Counter { Counter(raw % WORD, raw % WORD, 0) }

  function Advance(m: Counter, read: Read): Counter {
    match read
    case None => m
    case Some(raw) => Counter(raw % WORD, m.ref, if raw % WORD < m.last then (m.ovf + 1) % WORD else m.ovf)
  }

  function Advances(m: Counter, xs: seq<Sample>): Counter
    decreases |xs|
  {
    if xs == [] then m else Advances(Advance(m, ReadOf(xs[0])), xs[1..])
  }

  function Elapsed(m: Counter): int { Net(m.last, m.ovf * WORD, m.ref) }

  predicate Shows(f: int -> real, k: Socket, m: Counter) {
    k.lastE == f(m.last) && k.refE == f(m.ref) && k.ovfCnt == m.ovf
  }

  lemma ShowsAdvance(f: int -> real, k: Socket, m: Counter, read: Read)
    requires Linear(f) && Shows(f, k, m)
    ensures Shows(f, UpdateSocket(f, k, read), Advance(m, read))
  {
  }

  lemma {:induction false} ShowsAdvances(f: int -> real, k: Socket, m: Counter, xs: seq<Sample>)
    requires Linear(f) && Shows(f, k, m)
    ensures Shows(f, Updates(f, k, xs), Advances(m, xs))
    decreases |xs|
  {
    if xs != [] {
      ShowsAdvance(f, k, m, ReadOf(xs[0]));
      ShowsAdvances(f, UpdateSocket(f, k, ReadOf(xs[0])), Advance(m, ReadOf(xs[0])), xs[1..]);
    }
  }

  // In ticks: the last value and the overflow counter after any updates.
  lemma {:induction false} AdvancesTrack(m: Counter, t: nat, o: nat, xs: seq<Sample>)
    requires m.last == t % WORD && m.ovf == o % WORD
    requires forall x :: x in xs ==> Faithful(x)
    ensures Advances(m, xs) == Counter(LastTruth(t, xs) % WORD, m.ref, (o + Overflows(t, xs)) % WORD)
    decreases |xs|
  {
    if xs != [] {
      var x, d := xs[0], if Next(t, xs[0]) % WORD < t % WORD then 1 else 0;
      assert Faithful(x);
      NextMod(o);
      AdvancesTrack(Advance(m, ReadOf(x)), Next(t, x), o + d, xs[1..]);
    }
  }

  lemma NextMod(o: nat)
    ensures (o % WORD + 1) % WORD == (o + 1) % WORD
  {
  }

  lemma {:induction false} AdvancesSnoc(m: Counter, xs: seq<Sample>, x: Sample)
    ensures Advances(m, xs + [x]) == Advance(Advances(m, xs), ReadOf(x))
    decreases |xs|
  {
    if xs == [] {
      assert (xs + [x])[1..] == [];
    } else {
      assert (xs + [x])[1..] == xs[1..] + [x];
      AdvancesSnoc(Advance(m, ReadOf(xs[0])), xs[1..], x);
    }
  }

  lemma WrapArithmetic(t: nat, last: nat, seen: nat, o: nat, small: bool)
    requires t % WORD + seen == last % WORD + WORD * o
    requires t + seen <= last && (t + seen == last <==> small)
    ensures (last % WORD + (o % WORD) * WORD - t % WORD == last - t) <==> (small && last / WORD - t / WORD < WORD)
    ensures o % WORD <= last / WORD - t / WORD
  {
    assert o % WORD == o <==> o < WORD;
    assert small <==> o == last / WORD - t / WORD;
  }

  /** The tick count is exact if and only if fewer than 2^32 ticks pass between successive
      successful reads and the counter wraps fewer than 2^32 times in all; otherwise it is
      short of the truth by a whole number of wraps, never too large. */
  lemma TicksExact(x0: Sample, ys: seq<Sample>)
    requires x0.Good? && Faithful(x0) && (forall y :: y in ys ==> Faithful(y)) && Ordered(x0.truth, ys)
    ensures var t, last := x0.truth, LastTruth(x0.truth, ys);
            var e := Elapsed(Advances(Begin(x0.raw), ys));
            && (e == last - t <==> SmallGaps(t, ys) && last / WORD - t / WORD < WORD)
            && exists missed: nat :: e == last - t - missed * WORD
  {
    var t, last, o := x0.truth, LastTruth(x0.truth, ys), Overflows(x0.truth, ys);
    AdvancesTrack(Begin(x0.raw), t, 0, ys);
    SeenFromEnds(t, ys);
    SeenAtMost(t, ys);
    WrapArithmetic(t, last, Seen(t, ys), o, SmallGaps(t, ys));
    var missed: nat := last / WORD - t / WORD - o % WORD;
    assert Elapsed(Advances(Begin(x0.raw), ys)) == last - t - missed * WORD;
  }

  // What stop returns after a start, any updates and the stop's own read.
  function Measured(f: int -> real, k: Socket, x0: Sample, xs: seq<Sample>, x: Sample): real {
    StopSocket(f, Updates(f, StartSocket(f, k, ReadOf(x0)), xs), ReadOf(x)).res
  }

  lemma MeasuredTicks(f: int -> real, k: Socket, x0: Sample, xs: seq<Sample>, x: Sample)
    requires Linear(f) && x0.Good?
    ensures Measured(f, k, x0, xs, x) == f(Elapsed(Advances(Begin(x0.raw), xs + [x])))
  {
    var k0, m0 := StartSocket(f, k, ReadOf(x0)), Begin(x0.raw);
    AdvancesSnoc(m0, xs, x);
    ShowsAdvances(f, k0, m0, xs);
    ShowsAdvance(f, Updates(f, k0, xs), Advances(m0, xs), ReadOf(x));
  }

  /** Wrap reconstruction. Whatever reads fail, what stop returns for a socket after a
      successful start and any updates is the energy of the true number of ticks between the
      start and the last successful read, if and only if fewer than 2^32 ticks pass between
      successive successful reads and the counter wraps fewer than 2^32 times in all. */
  lemma WrapReconstruction(f: int -> real, k: Socket, x0: Sample, xs: seq<Sample>, x: Sample)
    requires Linear(f) && x0.Good? && Faithful(x0)
    requires (forall y :: y in xs + [x] ==> Faithful(y)) && Ordered(x0.truth, xs + [x])
    ensures var t, ys := x0.truth, xs + [x];
            var last := LastTruth(t, ys);
            (Measured(f, k, x0, xs, x) == f(last - t))
            <==> (SmallGaps(t, ys) && last / WORD - t / WORD < WORD)
  {
    var ys := xs + [x];
    MeasuredTicks(f, k, x0, xs, x);
    TicksExact(x0, ys);
    var e, d := Elapsed(Advances(Begin(x0.raw), ys)), LastTruth(x0.truth, ys) - x0.truth;
    assert e < d <==> f(e) < f(d);
    assert d < e <==> f(d) < f(e);
  }

  // ---------- a run of the probe ----------

  // Samples of all sockets at one moment; reads of socket s over several moments.
  function ReadsOf(xs: seq<Sample>): seq<Read> {
    seq(|xs|, s requires 0 <= s < |xs| => ReadOf(xs[s]))
  }

  predicate Samples(rows: seq<seq<Sample>>, n: nat) {
    forall k :: 0 <= k < |rows| ==> |rows[k]| == n
  }

  function Column(rows: seq<seq<Sample>>, n: nat, s: nat): seq<Sample>
    requires Samples(rows, n) && s < n
  {
    seq(|rows|, k requires 0 <= k < |rows| => rows[k][s])
  }

  lemma {:induction false} UpdatesSnoc(f: int -> real, k: Socket, xs: seq<Sample>, x: Sample)
    ensures Updates(f, k, xs + [x]) == UpdateSocket(f, Updates(f, k, xs), ReadOf(x))
    decreases |xs|
  {
    if xs == [] {
      assert (xs + [x])[1..] == [];
    } else {
      assert (xs + [x])[1..] == xs[1..] + [x];
      UpdatesSnoc(f, UpdateSocket(f, k, ReadOf(xs[0])), xs[1..], x);
    }
  }

  // The updates before row n, and one more.
  lemma ColumnStep(f: int -> real, k: Socket, rows: seq<seq<Sample>>, n: nat, s: nat, i: nat)
    requires Samples(rows, n) && s < n && i < |rows|
    ensures Updates(f, k, Column(rows[..i + 1], n, s))
         == UpdateSocket(f, Updates(f, k, Column(rows[..i], n, s)), ReadOf(rows[i][s]))
  {
    assert Column(rows[..i + 1], n, s) == Column(rows[..i], n, s) + [rows[i][s]];
    UpdatesSnoc(f, k, Column(rows[..i], n, s), rows[i][s]);
  }

  /** start, any number of updates and stop on the real arrays: every socket ends with what
      Measured says of its own reads, whichever of them fail. */
  method MeasureAll(probe: Probe, first: seq<Sample>, rows: seq<seq<Sample>>, last: seq<Sample>)
    requires probe.Valid() && |first| == |last| == probe.nbCPUs && Samples(rows, probe.nbCPUs)
    modifies probe.lastE, probe.refE, probe.ovfCnt, probe.res
    ensures forall s: nat :: s < probe.nbCPUs ==>
              probe.res[s] == Measured(Times(probe.eUnits[s]), old(probe.At(s)), first[s],
                                       Column(rows, probe.nbCPUs, s), last[s])
  {
    ghost var n := probe.nbCPUs;
    probe.Start(ReadsOf(first));
    label begun:
    var i := 0;
    while i < |rows|
      invariant i <= |rows|
      invariant forall s: nat :: s < n ==>
                  probe.At(s) == Updates(Times(probe.eUnits[s]), old@begun(probe.At(s)), Column(rows[..i], n, s))
    {
      probe.Update(ReadsOf(rows[i]));
      forall s: nat | s < n { ColumnStep(Times(probe.eUnits[s]), old@begun(probe.At(s)), rows, n, s, i); }
      i := i + 1;
    }
    assert rows[..i] == rows;
    probe.Stop(ReadsOf(last));
  }

  // Fewer than 2^32 ticks between successful reads, and fewer than 2^32 wraps in all.
  predicate Small(t: nat, ys: seq<Sample>) {
    SmallGaps(t, ys) && LastTruth(t, ys) / WORD - t / WORD < WORD
  }

  // The ticks from t to the last successful read.
  function Ticks(t: nat, ys: seq<Sample>): int { LastTruth(t, ys) - t }

  lemma TimesOf(u: real, n: int)
    ensures Times(u)(n) == n as real * u
  {
  }

  lemma SocketExact(u: real, k: Socket, x0: Sample, xs: seq<Sample>, x: Sample)
    requires u > 0.0 && x0.Good? && Faithful(x0)
    requires (forall y :: y in xs + [x] ==> Faithful(y)) && Ordered(x0.truth, xs + [x])
    ensures Measured(Times(u), k, x0, xs, x) == Times(u)(Ticks(x0.truth, xs + [x])) <==> Small(x0.truth, xs + [x])
  {
    TimesIsLinear(u);
    WrapReconstruction(Times(u), k, x0, xs, x);
  }

  // res is this number of ticks in units of u, if and only if small holds.
  predicate ExactIff(res: real, u: real, ticks: int, small: bool) {
    res == ticks as real * u <==> small
  }

  lemma InUnits(res: real, u: real, ticks: int, small: bool)
    requires res == Times(u)(ticks) <==> small
    ensures ExactIff(res, u, ticks, small)
  {
    TimesOf(u, ticks);
  }

  /** So, for faithful and ordered reads: the result of every socket is the number of true ticks
      up to its last successful read, times its unit, if and only if its gaps and wraps are
      small. */
  method MeasureExactly(probe: Probe, first: seq<Sample>, rows: seq<seq<Sample>>, last: seq<Sample>)
    requires probe.Valid() && |first| == |last| == probe.nbCPUs && Samples(rows, probe.nbCPUs)
    requires forall s: nat :: s < probe.nbCPUs ==>
               var ys := Column(rows, probe.nbCPUs, s) + [last[s]];
               && probe.eUnits[s] > 0.0 && first[s].Good? && Faithful(first[s])
               && (forall y :: y in ys ==> Faithful(y)) && Ordered(first[s].truth, ys)
    modifies probe.lastE, probe.refE, probe.ovfCnt, probe.res
    ensures forall s: nat :: s < probe.nbCPUs ==>
              var t, ys := first[s].truth, Column(rows, probe.nbCPUs, s) + [last[s]];
              ExactIff(probe.res[s], probe.eUnits[s], Ticks(t, ys), Small(t, ys))
  {
    ghost var n := probe.nbCPUs;
    MeasureAll(probe, first, rows, last);
    forall s: nat | s < n
      ensures var t, ys := first[s].truth, Column(rows, n, s) + [last[s]];
              ExactIff(probe.res[s], probe.eUnits[s], Ticks(t, ys), Small(t, ys))
    {
      var t, ys := first[s].truth, Column(rows, n, s) + [last[s]];
      SocketExact(probe.eUnits[s], old(probe.At(s)), first[s], Column(rows, n, s), last[s]);
      InUnits(probe.res[s], probe.eUnits[s], Ticks(t, ys), Small(t, ys));
    }
  }
}
