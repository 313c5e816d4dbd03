// src/ExperimentationResults.cpp and .hpp, src/RunData.cpp: the records of an experiment in a
// vector that doubles when it is full. Records are values, as in a std::vector of objects.

module ResultStore {
  import opened ProbeMatrix

  // RunData: one matrix per probe.
  type Record = seq<Matrix>

  predicate IsRecord(r: Record, shapes: seq<Shape>) {
    |r| == |shapes| && forall i :: 0 <= i < |r| ==> IsMatrix(r[i], shapes[i])
  }

  function Blank(shapes: seq<Shape>): (r: Record)
    ensures IsRecord(r, shapes)
  {
    seq(|shapes|, i requires 0 <= i < |shapes| => Zero(shapes[i]))
  }

  // What the probes return from one measurement: a flat array per probe.
  type Sample = seq<seq<real>>

  predicate Fits(x: Sample, shapes: seq<Shape>) {
    |x| == |shapes| && forall i :: 0 <= i < |x| ==> |x[i]| >= shapes[i].Size()
  }

  // Every measurement returns arrays that fit.
  ghost predicate AllFit(feed: nat -> Sample, shapes: seq<Shape>) {
    forall w: nat :: Fits(feed(w), shapes)
  }

  function RecordOf(x: Sample, shapes: seq<Shape>): (r: Record)
    requires Fits(x, shapes)
    ensures IsRecord(r, shapes)
  {
    seq(|shapes|, i requires 0 <= i < |shapes| => Unflatten(x[i], shapes[i]))
  }

  // ---------- the store as a value ----------

  datatype Store = Store(results: seq<Record>, nb: nat)

  predicate IsStore(s: Store, shapes: seq<Shape>) {
    forall k :: 0 <= k < |s.results| ==> IsRecord(s.results[k], shapes)
  }

  function Blanks(n: nat, shapes: seq<Shape>): seq<Record> {
    seq(n, _ => Blank(shapes))
  }

  function Empty(n: nat, shapes: seq<Shape>): Store { Store(Blanks(n, shapes), 0) }

  function Extended(s: Store, shapes: seq<Shape>): Store {
    s.(results := s.results + Blanks(|s.results|, shapes))
  }

  function Roomy(s: Store, shapes: seq<Shape>): Store {
    if s.nb >= |s.results| then Extended(s, shapes) else s
  }

  // The records of the stop in hand have a place; without probes none is needed.
  predicate HasRoom(s: Store, shapes: seq<Shape>) {
    shapes == [] || Roomy(s, shapes).nb < |Roomy(s, shapes).results|
  }

  /** After the check for room there is a free place exactly when the vector is not empty. */
  lemma RoomAfterDoubling(s: Store, shapes: seq<Shape>)
    requires s.nb <= |s.results|
    ensures HasRoom(s, shapes) <==> shapes == [] || |s.results| > 0
  {
  }

  // The effect of one stop of the collector: room, the record, the count.
  function Stopped(s: Store, shapes: seq<Shape>, x: Sample): Store
    requires Fits(x, shapes)
  {
    var t := Roomy(s, shapes);
    Store(if t.nb < |t.results| then t.results[t.nb := RecordOf(x, shapes)] else t.results, t.nb + 1)
  }

  function StopsOf(s: Store, shapes: seq<Shape>, xs: seq<Sample>): Store
    requires forall x :: x in xs ==> Fits(x, shapes)
  {
    if xs == [] then s else Stopped(StopsOf(s, shapes, xs[..|xs| - 1]), shapes, xs[|xs| - 1])
  }

  // ---------- the class ----------

  class ExperimentationResults {
    const shapes: seq<Shape>
    var results: seq<Record>
    var nbMeasurement: nat

    ghost function View(): Store
      reads this
    {
      Store(results, nbMeasurement)
    }

    ghost predicate Valid()
      reads this
    {
      IsStore(View(), shapes)
    }

    constructor (nbMetaRepeat: nat, probes: seq<Shape>)
      ensures Valid() && shapes == probes && View() == Empty(nbMetaRepeat, probes)
    {
      shapes := probes;
      results := Blanks(nbMetaRepeat, probes);
      nbMeasurement := 0;
    }

    predicate IsFull()
      reads this
    {
      nbMeasurement >= |results|
    }

    method Extend()
      requires Valid()
      modifies this
      ensures Valid() && View() == Extended(old(View()), shapes)
    {
      var size := |results|;
      var i := 0;
      while i < size
        invariant i <= size && nbMeasurement == old(nbMeasurement)
        invariant results == old(results) + Blanks(i, shapes)
      {
        results := results + [Blank(shapes)];
        assert Blanks(i, shapes) + [Blank(shapes)] == Blanks(i + 1, shapes);
        i := i + 1;
      }
    }

    method SetProbeData(probeIndex: nat, pData: array<real>)
      requires Valid() && nbMeasurement < |results| && probeIndex < |shapes|
      requires pData.Length >= shapes[probeIndex].Size()
      modifies this
      ensures Valid() && nbMeasurement == old(nbMeasurement)
      ensures var k := nbMeasurement;
              results == old(results)[k := old(results)[k][probeIndex := Unflatten(pData[..], shapes[probeIndex])]]
    {
      var k, sh := nbMeasurement, shapes[probeIndex];
      var pd := new ProbeData(sh.devices, sh.channels);
      pd.data := results[k][probeIndex];
      pd.SetData(pData);
      results := results[k := results[k][probeIndex := pd.data]];
    }

    method MeasurementDone()
      modifies this
      ensures nbMeasurement == old(nbMeasurement) + 1 && results == old(results)
    {
      nbMeasurement := nbMeasurement + 1;
    }
  }

  // ---------- whole runs ----------

  /** One stop keeps every earlier record, whether or not the vector doubles. */
  lemma StopKeepsRecords(s: Store, shapes: seq<Shape>, x: Sample, k: nat)
    requires Fits(x, shapes) && k < s.nb <= |s.results|
    ensures k < |Stopped(s, shapes, x).results| && Stopped(s, shapes, x).results[k] == s.results[k]
  {
  }

  function Doubled(cap: nat, j: nat): nat { if j == 0 then cap else 2 * Doubled(cap, j - 1) }

  // n records in a vector that began with cap places and doubled as seldom as possible.
  ghost predicate Tight(cap: nat, n: nat, size: nat) {
    n <= size && (exists j: nat :: size == Doubled(cap, j)) && (size == cap || size < 2 * n)
  }

  /** From a capacity of at least one, record k of the store is the sample of the k-th stop,
      for any number of stops; the vector has doubled only as often as needed, and not at all
      for as many stops as it had places. */
  lemma {:induction false} RecordsAreSamples(cap: nat, shapes: seq<Shape>, xs: seq<Sample>)
    requires cap > 0 && forall x :: x in xs ==> Fits(x, shapes)
    ensures var s := StopsOf(Empty(cap, shapes), shapes, xs);
            && s.nb == |xs| && Tight(cap, |xs|, |s.results|)
            && (|xs| <= cap ==> |s.results| == cap)
            && forall k :: 0 <= k < |xs| ==> s.results[k] == RecordOf(xs[k], shapes)
    decreases |xs|
  {
    if xs == [] {
      assert cap == Doubled(cap, 0);
    } else {
      var n := |xs| - 1;
      assert xs == xs[..n] + [xs[n]];
      RecordsAreSamples(cap, shapes, xs[..n]);
      var before := StopsOf(Empty(cap, shapes), shapes, xs[..n]);
      SizeStep(cap, n, |before.results|);
      assert forall k :: 0 <= k < n ==> xs[..n][k] == xs[k];
      StopAdds(before, shapes, xs[n]);
    }
  }

  // The new record goes behind the earlier ones.
  lemma StopAdds(s: Store, shapes: seq<Shape>, x: Sample)
    requires Fits(x, shapes) && s.nb <= |s.results| && |s.results| > 0
    ensures var t := Stopped(s, shapes, x);
            && t.nb == s.nb + 1 <= |t.results| == (if s.nb >= |s.results| then 2 * |s.results| else |s.results|)
            && t.results[s.nb] == RecordOf(x, shapes)
            && forall k :: 0 <= k < s.nb ==> t.results[k] == s.results[k]
  {
  }

  lemma SizeStep(cap: nat, n: nat, size: nat)
    requires cap > 0 && Tight(cap, n, size) && (n <= cap ==> size == cap)
    ensures var size' := if n >= size then 2 * size else size;
            n < size' && Tight(cap, n + 1, size') && (n + 1 <= cap ==> size' == cap)
  {
    var j: nat :| size == Doubled(cap, j);
    assert 2 * size == Doubled(cap, j + 1);
  }

  // The samples of n measurements in a row.
  function Samples(feed: nat -> Sample, first: nat, n: nat): seq<Sample> {
    seq(n, k requires 0 <= k < n => feed(first + k))
  }

  // The stops of n measurements in a row, into a new store.
  ghost function Stored(cap: nat, shapes: seq<Shape>, feed: nat -> Sample, first: nat, n: nat): Store
    requires AllFit(feed, shapes)
  {
    if n == 0 then Empty(cap, shapes)
    else Stopped(Stored(cap, shapes, feed, first, n - 1), shapes, feed(first + n - 1))
  }

  lemma {:induction false} StoredIsStopsOf(cap: nat, shapes: seq<Shape>, feed: nat -> Sample, first: nat, n: nat)
    requires AllFit(feed, shapes)
    ensures Stored(cap, shapes, feed, first, n) == StopsOf(Empty(cap, shapes), shapes, Samples(feed, first, n))
  {
    if n > 0 {
      assert Samples(feed, first, n)[..n - 1] == Samples(feed, first, n - 1);
      StoredIsStopsOf(cap, shapes, feed, first, n - 1);
    }
  }

  lemma StoredRecords(cap: nat, shapes: seq<Shape>, feed: nat -> Sample, first: nat, n: nat)
    requires AllFit(feed, shapes) && (cap > 0 || n == 0)
    ensures var s := Stored(cap, shapes, feed, first, n);
            && s.nb == n <= |s.results| && (n <= cap ==> |s.results| == cap)
            && forall k: nat :: k < n ==> s.results[k] == RecordOf(feed(first + k), shapes)
  {
    StoredIsStopsOf(cap, shapes, feed, first, n);
    if cap > 0 { RecordsAreSamples(cap, shapes, Samples(feed, first, n)); }
  }

  /** Doubling an empty vector leaves it empty: from capacity zero there is never room. */
  lemma {:induction false} ZeroCapacityStays(shapes: seq<Shape>, xs: seq<Sample>)
    requires forall x :: x in xs ==> Fits(x, shapes)
    ensures StopsOf(Empty(0, shapes), shapes, xs).results == []
    decreases |xs|
  {
    if xs != [] {
      assert forall x :: x in xs[..|xs| - 1] ==> x in xs;
      ZeroCapacityStays(shapes, xs[..|xs| - 1]);
    }
  }
}
