// src/ExperimentationResultsWriter.cpp: the mean overhead, the header and the rows of the
// result file. The stream is a sequence of items; the digits of a number are not modelled.

module ResultsWriter {
  import opened ProbeMatrix
  import opened ResultStore

  datatype Item = Label(text: string) | Cell(v: real) | Semicolon | Newline

  // ---------- the stream ----------

  function Semicolons(n: nat): seq<Item> { seq(n, _ => Semicolon) }

  // A probe's label and one ';' for each of its cells.
  function HeaderOf(labels: seq<string>, shapes: seq<Shape>): seq<Item>
    requires |labels| == |shapes|
  {
    if labels == [] then []
    else
      var n := |labels| - 1;
      HeaderOf(labels[..n], shapes[..n]) + [Label(labels[n])] + Semicolons(shapes[n].Size())
  }

  // Each value followed by a ';'.
  function CellsOf(vs: seq<real>): seq<Item> {
    if vs == [] then [] else CellsOf(vs[..|vs| - 1]) + [Cell(vs[|vs| - 1]), Semicolon]
  }

  function RowOf(r: Record): seq<Item> {
    if r == [] then [] else RowOf(r[..|r| - 1]) + CellsOf(Flatten(r[|r| - 1]))
  }

  // A row ends with the last probe; without probes there is nothing to end it.
  function LineOf(r: Record): seq<Item> {
    RowOf(r) + (if r == [] then [] else [Newline])
  }

  function LinesOf(rs: seq<Record>): seq<Item> {
    if rs == [] then [] else LinesOf(rs[..|rs| - 1]) + LineOf(rs[|rs| - 1])
  }

  // ---------- averaging and subtracting ----------

  predicate Records(rs: seq<Record>, shapes: seq<Shape>) {
    forall k :: 0 <= k < |rs| ==> IsRecord(rs[k], shapes)
  }

  // Sum of the matrices of probe i.
  function SumOf(runs: seq<Record>, shapes: seq<Shape>, i: nat): (m: Matrix)
    requires i < |shapes| && Records(runs, shapes)
    ensures IsMatrix(m, shapes[i])
  {
    if runs == [] then Zero(shapes[i])
    else
      assert IsRecord(runs[|runs| - 1], shapes);
      Plus(SumOf(runs[..|runs| - 1], shapes, i), runs[|runs| - 1][i])
  }

  // The sums over the number of runs that have been counted.
  function MeanOf(runs: seq<Record>, quot: nat, shapes: seq<Shape>): (m: Record)
    requires quot > 0 && Records(runs, shapes)
    ensures IsRecord(m, shapes)
  {
    seq(|shapes|, i requires 0 <= i < |shapes| => Over(SumOf(runs, shapes, i), quot))
  }

  function MinusOf(r: Record, mean: Record, shapes: seq<Shape>): (m: Record)
    requires IsRecord(r, shapes) && IsRecord(mean, shapes)
    ensures IsRecord(m, shapes)
  {
    seq(|shapes|, i requires 0 <= i < |shapes| => Minus(r[i], mean[i]))
  }

  function Corrected(rs: seq<Record>, mean: Record, shapes: seq<Shape>): (cs: seq<Record>)
    requires Records(rs, shapes) && IsRecord(mean, shapes)
    ensures Records(cs, shapes) && |cs| == |rs|
  {
    seq(|rs|, k requires 0 <= k < |rs| => MinusOf(rs[k], mean, shapes))
  }

  // The used records of a store.
  function Used(s: Store): (rs: seq<Record>)
    ensures |rs| <= s.nb && |rs| <= |s.results| && (|rs| == s.nb || |rs| == |s.results|)
    ensures forall k :: 0 <= k < |rs| ==> rs[k] == s.results[k]
  {
    if s.nb <= |s.results| then s.results[..s.nb] else s.results
  }

  // Some overhead run is there, so that the sums are no null pointers.
  predicate HasRun(s: Store) { s.nb > 0 && s.results != [] }

  // Header, line end and rows.
  function Body(labels: seq<string>, shapes: seq<Shape>, cs: seq<Record>): seq<Item>
    requires |labels| == |shapes|
  {
    HeaderOf(labels, shapes) + [Newline] + LinesOf(cs)
  }

  // The whole file.
  function FileOf(overhead: Store, results: Store, labels: seq<string>, shapes: seq<Shape>): seq<Item>
    requires IsStore(overhead, shapes) && IsStore(results, shapes) && |labels| == |shapes|
    requires overhead.nb > 0
  {
    Body(labels, shapes, Corrected(Used(results), MeanOf(Used(overhead), overhead.nb, shapes), shapes))
  }

  // ---------- the loops ----------

  lemma SumSnoc(runs: seq<Record>, run: Record, shapes: seq<Shape>, i: nat)
    requires Records(runs, shapes) && IsRecord(run, shapes) && i < |shapes|
    ensures Records(runs + [run], shapes)
    ensures SumOf(runs + [run], shapes, i) == Plus(SumOf(runs, shapes, i), run[i])
  {
    assert (runs + [run])[..|runs|] == runs;
  }

  lemma {:induction false} CellsConcat(a: seq<real>, b: seq<real>)
    ensures CellsOf(a + b) == CellsOf(a) + CellsOf(b)
    decreases |b|
  {
    if b == [] {
      assert a + b == a;
    } else {
      var n := |b| - 1;
      assert (a + b)[..|a| + n] == a + b[..n];
      CellsConcat(a, b[..n]);
    }
  }

  // operator<<
  method PrintCells(pd: ProbeData) returns (items: seq<Item>)
    requires pd.Valid()
    ensures items == CellsOf(Flatten(pd.data))
  {
    items := [];
    var device := 0;
    while device < pd.shape.devices
      invariant device <= |pd.data| && items == CellsOf(Flatten(pd.data[..device]))
    {
      ghost var before := items;
      var row := pd.data[device];
      var channel := 0;
      while channel < pd.shape.channels
        invariant channel <= |row| && items == before + CellsOf(row[..channel])
      {
        assert row[..channel + 1][..channel] == row[..channel];
        items := items + [Cell(row[channel]), Semicolon];
        channel := channel + 1;
      }
      assert row[..channel] == row;
      assert pd.data[..device + 1][..device] == pd.data[..device];
      CellsConcat(Flatten(pd.data[..device]), row);
      device := device + 1;
    }
    assert pd.data[..device] == pd.data;
  }

  method WriteHeader(labels: seq<string>, shapes: seq<Shape>) returns (items: seq<Item>)
    requires |labels| == |shapes|
    ensures |items| > 0 && items[|items| - 1] == Newline
    ensures items[..|items| - 1] == HeaderOf(labels, shapes)
  {
    items := [];
    var p := 0;
    while p < |labels|
      invariant p <= |labels| && items == HeaderOf(labels[..p], shapes[..p])
    {
      ghost var before := items;
      items := items + [Label(labels[p])];
      var i := 0;
      while i < shapes[p].Size()
        invariant i <= shapes[p].Size() && items == before + [Label(labels[p])] + Semicolons(i)
      {
        assert Semicolons(i) + [Semicolon] == Semicolons(i + 1);
        items := items + [Semicolon];
        i := i + 1;
      }
      assert labels[..p + 1][..p] == labels[..p] && shapes[..p + 1][..p] == shapes[..p];
      p := p + 1;
    }
    assert labels[..p] == labels && shapes[..p] == shapes;
    items := items + [Newline];
  }

  // An entry of libsOverheadAvg that holds the sum m; none is allocated before the first run.
  ghost predicate Slot(p: ProbeData?, first: bool, m: Matrix, sh: Shape)
    reads p
  {
    if first then p == null && m == Zero(sh) else p != null && p.shape == sh && p.data == m
  }

  ghost predicate Slots(avg: seq<ProbeData?>, first: bool, ms: Record, shapes: seq<Shape>)
    reads set p: object | p in avg
  {
    |avg| == |shapes| && IsRecord(ms, shapes) && forall i :: 0 <= i < |avg| ==> Slot(avg[i], first, ms[i], shapes[i])
  }

  ghost predicate Distinct(avg: seq<ProbeData?>) {
    forall i, j :: 0 <= i < j < |avg| && avg[i] != null ==> avg[i] != avg[j]
  }

  function SumRecord(a: Record, b: Record, shapes: seq<Shape>): (m: Record)
    requires IsRecord(a, shapes) && IsRecord(b, shapes)
    ensures IsRecord(m, shapes)
  {
    seq(|shapes|, i requires 0 <= i < |shapes| => Plus(a[i], b[i]))
  }

  // Adds a matrix to a sum, allocated at its first use.
  method AddToSlot(p: ProbeData?, pd: Matrix, sh: Shape, ghost first: bool, ghost m: Matrix) returns (p': ProbeData)
    requires IsMatrix(m, sh) && IsMatrix(pd, sh) && Slot(p, first, m, sh)
    modifies if p == null then {} else {p}
    ensures p != null ==> p' == p
    ensures p == null ==> fresh(p')
    ensures Slot(p', false, Plus(m, pd), sh)
  {
    if p == null {
      p' := new ProbeData(sh.devices, sh.channels);
    } else {
      p' := p;
    }
    p'.Add(pd);
  }

  // The inner loop of the averaging: one run is added to all sums.
  method AddRun(avg: seq<ProbeData?>, run: Record, shapes: seq<Shape>, ghost first: bool, ghost ms: Record)
    returns (avg': seq<ProbeData?>)
    requires Slots(avg, first, ms, shapes) && IsRecord(run, shapes) && Distinct(avg)
    modifies set p | p in avg && p != null :: p
    ensures Slots(avg', false, SumRecord(ms, run, shapes), shapes) && Distinct(avg')
    ensures forall p :: p in avg' && p !in avg ==> fresh(p)
  {
    avg' := avg;
    var i := 0;
    while i < |run|
      invariant i <= |run| && |avg'| == |avg| && Distinct(avg')
      invariant forall k :: 0 <= k < i ==> Slot(avg'[k], false, Plus(ms[k], run[k]), shapes[k])
      invariant forall k :: 0 <= k < i ==> avg'[k] == avg[k] || fresh(avg'[k])
      invariant forall k :: i <= k < |avg| ==> avg'[k] == avg[k] && Slot(avg[k], first, ms[k], shapes[k])
    {
      assert avg'[i] in avg;
      var p := AddToSlot(avg'[i], run[i], shapes[i], first, ms[i]);
      avg' := avg'[i := p];
      i := i + 1;
    }
  }

  function SumsOf(runs: seq<Record>, shapes: seq<Shape>): (m: Record)
    requires Records(runs, shapes)
    ensures IsRecord(m, shapes)
  {
    seq(|shapes|, i requires 0 <= i < |shapes| => SumOf(runs, shapes, i))
  }

  lemma SumsSnoc(runs: seq<Record>, run: Record, shapes: seq<Shape>)
    requires Records(runs, shapes) && IsRecord(run, shapes)
    ensures Records(runs + [run], shapes)
    ensures SumsOf(runs + [run], shapes) == SumRecord(SumsOf(runs, shapes), run, shapes)
  {
    forall i | 0 <= i < |shapes|
      ensures SumsOf(runs + [run], shapes)[i] == SumRecord(SumsOf(runs, shapes), run, shapes)[i]
    {
      SumSnoc(runs, run, shapes, i);
    }
  }

  // The loop that adds up the overhead runs.
  method SumOverhead(overhead: ExperimentationResults) returns (avg: seq<ProbeData?>)
    requires overhead.Valid()
    ensures Records(Used(overhead.View()), overhead.shapes) && Distinct(avg)
    ensures Slots(avg, !HasRun(overhead.View()), SumsOf(Used(overhead.View()), overhead.shapes), overhead.shapes)
    ensures forall p :: p in avg ==> p == null || fresh(p)
  {
    ghost var shapes, runs := overhead.shapes, Used(overhead.View());
    avg := seq(|overhead.shapes|, _ => null);
    var r := 0;
    while r < overhead.nbMeasurement && r < |overhead.results|
      invariant r <= overhead.nbMeasurement && r <= |overhead.results| && Distinct(avg) && Records(runs[..r], shapes)
      invariant forall p :: p in avg ==> p == null || fresh(p)
      invariant Slots(avg, r == 0, SumsOf(runs[..r], shapes), shapes)
    {
      assert runs[..r] + [overhead.results[r]] == runs[..r + 1];
      SumsSnoc(runs[..r], overhead.results[r], shapes);
      avg := AddRun(avg, overhead.results[r], overhead.shapes, r == 0, SumsOf(runs[..r], shapes));
      r := r + 1;
    }
    assert r == |runs| && (r == 0 <==> !HasRun(overhead.View()));
    assert runs[..r] == runs;
  }

  // The loop that divides the sums. The result is false when an entry is still NULL.
  method DivideAll(avg: seq<ProbeData?>, quot: nat, ghost none: bool, ghost ms: Record, ghost shapes: seq<Shape>)
    returns (ok: bool)
    requires Slots(avg, none, ms, shapes) && Distinct(avg) && (quot == 0 ==> none)
    modifies set p | p in avg && p != null :: p
    ensures ok <==> !none || shapes == []
    ensures ok && quot > 0 ==>
              forall i :: 0 <= i < |avg| ==> Slot(avg[i], false, Over(ms[i], quot), shapes[i])
  {
    var i := 0;
    while i < |avg|
      invariant i <= |avg| && (i > 0 ==> !none)
      invariant forall k :: 0 <= k < i ==> Slot(avg[k], false, Over(ms[k], quot), shapes[k])
      invariant forall k :: i <= k < |avg| ==> Slot(avg[k], none, ms[k], shapes[k])
    {
      if avg[i] == null { return false; }
      assert avg[i] in avg;
      var _ := avg[i].Divide(quot);
      i := i + 1;
    }
    ok := true;
  }

  method WriteDifference(raw: Matrix, avg: ProbeData, ghost m: Matrix, ghost diff: Matrix) returns (cells: seq<Item>)
    requires IsMatrix(raw, avg.shape) && IsMatrix(m, avg.shape) && avg.data == m && diff == Minus(raw, m)
    ensures cells == CellsOf(Flatten(diff))
  {
    var pPD := Difference(raw, avg.data, avg.shape);
    cells := PrintCells(pPD);
  }

  lemma RowSnoc(r: Record, i: nat)
    requires i < |r|
    ensures RowOf(r[..i + 1]) == RowOf(r[..i]) + CellsOf(Flatten(r[i]))
  {
    assert r[..i + 1][..i] == r[..i];
  }

  // One row: every probe's difference is printed, and the last one ends the line.
  method WriteRow(raw: Record, avg: seq<ProbeData?>, shapes: seq<Shape>, ghost mean: Record) returns (items: seq<Item>)
    requires IsRecord(raw, shapes) && Slots(avg, false, mean, shapes)
    ensures items == LineOf(MinusOf(raw, mean, shapes))
  {
    ghost var diff := MinusOf(raw, mean, shapes);
    var i, n := 0, |raw|;
    ghost var row: seq<Item> := [];
    items := [];
    while i < n
      invariant i <= n && row == RowOf(diff[..i])
      invariant items == if 0 < i == n then row + [Newline] else row
    {
      assert Slot(avg[i], false, mean[i], shapes[i]);
      var cells := WriteDifference(raw[i], avg[i], mean[i], diff[i]);
      RowSnoc(diff, i);
      items, row := items + cells, row + cells;
      if i == n - 1 {
        items := items + [Newline];
      }
      i := i + 1;
    }
    assert diff[..n] == diff;
  }

  lemma LinesStep(rs: seq<Record>, n: nat)
    requires n < |rs|
    ensures LinesOf(rs[..n + 1]) == LinesOf(rs[..n]) + LineOf(rs[n])
  {
    assert rs[..n + 1][..n] == rs[..n];
  }

  // The rows, up to the first counted record that is not there; ok says that there was none.
  method WriteRows(results: ExperimentationResults, avg: seq<ProbeData?>, ghost mean: Record)
    returns (ok: bool, items: seq<Item>)
    requires results.Valid() && Slots(avg, false, mean, results.shapes)
    ensures Records(Used(results.View()), results.shapes) && IsRecord(mean, results.shapes)
    ensures ok <==> results.nbMeasurement <= |results.results|
    ensures items == LinesOf(Corrected(Used(results.View()), mean, results.shapes))
  {
    ghost var shapes := results.shapes;
    ghost var target := Corrected(Used(results.View()), mean, shapes);
    items := [];
    var mRepet := 0;
    while mRepet < results.nbMeasurement && mRepet < |results.results|
      invariant mRepet <= results.nbMeasurement && mRepet <= |results.results| && items == LinesOf(target[..mRepet])
    {
      var line := WriteRow(results.results[mRepet], avg, results.shapes, mean);
      LinesStep(target, mRepet);
      items := items + line;
      mRepet := mRepet + 1;
    }
    assert target[..mRepet] == target;
    ok := mRepet == results.nbMeasurement;
  }

  lemma {:induction false} NoProbesNoLines(rs: seq<Record>, shapes: seq<Shape>)
    requires Records(rs, shapes)
    ensures shapes == [] ==> LinesOf(rs) == []
    decreases |rs|
  {
    if rs != [] {
      assert IsRecord(rs[|rs| - 1], shapes);
      NoProbesNoLines(rs[..|rs| - 1], shapes);
    }
  }

  // How writing ends: with the file, at a null pointer, or at a record behind the vector.
  datatype Ending = Written | NullPointer | OutOfRange

  /** ExperimentationResultsWriter::write, on any two stores. Without an overhead run it
      dereferences a null pointer, unless there are no probes; and it reads behind the end of
      the vector when more results have been counted than stored. Up to there, and in the end,
      the stream is header and corrected rows. */
  method Write(overhead: ExperimentationResults, results: ExperimentationResults, labels: seq<string>)
    returns (ending: Ending, items: seq<Item>)
    requires overhead.Valid() && results.Valid() && overhead.shapes == results.shapes
    requires |labels| == |results.shapes|
    ensures ending.NullPointer? <==> !HasRun(overhead.View()) && results.shapes != []
    ensures ending.OutOfRange? <==> !ending.NullPointer? && results.nbMeasurement > |results.results|
    ensures !ending.NullPointer? && overhead.nbMeasurement > 0 ==>
              items == FileOf(overhead.View(), results.View(), labels, results.shapes)
    ensures ending.NullPointer? ==> items == []
    ensures results.shapes == [] ==> items == [Newline]
  {
    items := [];
    var avg := SumOverhead(overhead);
    ghost var runs := Used(overhead.View());
    var divided := DivideAll(avg, overhead.nbMeasurement, !HasRun(overhead.View()), SumsOf(runs, overhead.shapes),
                             overhead.shapes);
    if !divided { return NullPointer, []; }
    items := WriteHeader(labels, results.shapes);
    assert items == HeaderOf(labels, results.shapes) + [Newline];
    ghost var mean := if overhead.nbMeasurement > 0 then MeanOf(runs, overhead.nbMeasurement, overhead.shapes) else [];
    var ok, lines := WriteRows(results, avg, mean);
    NoProbesNoLines(Corrected(Used(results.View()), mean, results.shapes), results.shapes);
    items := items + lines;
    ending := if ok then Written else OutOfRange;
  }

  // ---------- what the file says ----------

  // Sum of one cell over all runs.
  function SumAt(rs: seq<Record>, shapes: seq<Shape>, i: nat, d: nat, c: nat): real
    requires Records(rs, shapes) && i < |shapes| && d < shapes[i].devices && c < shapes[i].channels
  {
    if rs == [] then 0.0
    else
      assert IsRecord(rs[|rs| - 1], shapes);
      SumAt(rs[..|rs| - 1], shapes, i, d, c) + rs[|rs| - 1][i][d][c]
  }

  lemma LastRow(rs: seq<Record>, shapes: seq<Shape>, i: nat, d: nat, c: nat)
    requires rs != [] && Records(rs, shapes) && i < |shapes| && d < shapes[i].devices && c < shapes[i].channels
    ensures var n := |rs| - 1;
            IsRecord(rs[n], shapes) && SumAt(rs, shapes, i, d, c) == SumAt(rs[..n], shapes, i, d, c) + rs[n][i][d][c]
  {
  }

  lemma {:induction false} SumOfAt(rs: seq<Record>, shapes: seq<Shape>, i: nat, d: nat, c: nat)
    requires Records(rs, shapes) && i < |shapes| && d < shapes[i].devices && c < shapes[i].channels
    ensures SumOf(rs, shapes, i)[d][c] == SumAt(rs, shapes, i, d, c)
    decreases |rs|
  {
    if rs != [] {
      SumOfAt(rs[..|rs| - 1], shapes, i, d, c);
    }
  }

  // n times the mean is the sum.
  lemma MeanAt(over: seq<Record>, quot: nat, shapes: seq<Shape>, i: nat, d: nat, c: nat)
    requires quot > 0 && Records(over, shapes)
    requires i < |shapes| && d < shapes[i].devices && c < shapes[i].channels
    ensures Product(quot, MeanOf(over, quot, shapes)[i][d][c]) == SumAt(over, shapes, i, d, c)
  {
    SumOfAt(over, shapes, i, d, c);
    QuotientTimes(SumAt(over, shapes, i, d, c), quot);
  }

  // For any record that is subtracted from every row.
  lemma MinusAt(rs: seq<Record>, mean: Record, shapes: seq<Shape>, k: nat, i: nat, d: nat, c: nat)
    requires IsRecord(mean, shapes) && Records(rs, shapes) && k < |rs|
    requires i < |shapes| && d < shapes[i].devices && c < shapes[i].channels
    ensures IsRecord(rs[k], shapes) && IsRecord(Corrected(rs, mean, shapes)[k], shapes)
    ensures Corrected(rs, mean, shapes)[k][i][d][c] == rs[k][i][d][c] - mean[i][d][c]
  {
  }

  lemma CellOf(rs: seq<Record>, mean: Record, shapes: seq<Shape>, k: nat, i: nat, d: nat, c: nat, n: nat, sum: real)
    requires IsRecord(mean, shapes) && Records(rs, shapes) && k < |rs|
    requires i < |shapes| && d < shapes[i].devices && c < shapes[i].channels
    requires Product(n, mean[i][d][c]) == sum
    ensures IsRecord(rs[k], shapes) && IsRecord(Corrected(rs, mean, shapes)[k], shapes)
    ensures Product(n, rs[k][i][d][c] - Corrected(rs, mean, shapes)[k][i][d][c]) == sum
  {
    MinusAt(rs, mean, shapes, k, i, d, c);
  }

  /** Every written cell is the raw cell less the mean of the cell of the same probe, device and
      channel: times the number of overhead runs counted, the difference is their sum. */
  lemma CellIsRawMinusMean(over: seq<Record>, quot: nat, rs: seq<Record>, shapes: seq<Shape>,
                           k: nat, i: nat, d: nat, c: nat)
    requires quot > 0 && Records(over, shapes) && Records(rs, shapes) && k < |rs|
    requires i < |shapes| && d < shapes[i].devices && c < shapes[i].channels
    ensures IsRecord(rs[k], shapes) && IsRecord(Corrected(rs, MeanOf(over, quot, shapes), shapes)[k], shapes)
    ensures Product(quot, rs[k][i][d][c] - Corrected(rs, MeanOf(over, quot, shapes), shapes)[k][i][d][c])
         == SumAt(over, shapes, i, d, c)
  {
    MeanAt(over, quot, shapes, i, d, c);
    CellOf(rs, MeanOf(over, quot, shapes), shapes, k, i, d, c, quot, SumAt(over, shapes, i, d, c));
  }

  lemma {:induction false} ColumnSumsOf(mean: Record, rs: seq<Record>, shapes: seq<Shape>, i: nat, d: nat, c: nat)
    requires IsRecord(mean, shapes) && Records(rs, shapes)
    requires i < |shapes| && d < shapes[i].devices && c < shapes[i].channels
    ensures SumAt(Corrected(rs, mean, shapes), shapes, i, d, c) + Product(|rs|, mean[i][d][c])
         == SumAt(rs, shapes, i, d, c)
    decreases |rs|
  {
    OneMore(0, mean[i][d][c]);
    if rs != [] {
      var n, cs := |rs| - 1, Corrected(rs, mean, shapes);
      assert cs[..n] == Corrected(rs[..n], mean, shapes);
      ColumnSumsOf(mean, rs[..n], shapes, i, d, c);
      LastRow(cs, shapes, i, d, c);
      LastRow(rs, shapes, i, d, c);
      OneMore(n, mean[i][d][c]);
    }
  }

  function Product(n: nat, x: real): real { n as real * x }

  lemma OneMore(n: nat, x: real)
    ensures Product(n + 1, x) == Product(n, x) + x && Product(0, x) == 0.0
  {
  }

  lemma Scale(n: nat, rows: nat, written: real, mean: real, sum: real, raw: real)
    requires written + Product(rows, mean) == raw && Product(n, mean) == sum
    ensures Product(n, written) + Product(rows, sum) == Product(n, raw)
  {
    assert n as real * (rows as real * mean) == rows as real * (n as real * mean);
  }

  /** Down every column: with n overhead runs counted, n times what is written and rows times
      their sum add up to n times the raw column. */
  lemma ColumnSums(over: seq<Record>, quot: nat, rs: seq<Record>, shapes: seq<Shape>, i: nat, d: nat, c: nat)
    requires quot > 0 && Records(over, shapes) && Records(rs, shapes)
    requires i < |shapes| && d < shapes[i].devices && c < shapes[i].channels
    ensures quot as real * SumAt(Corrected(rs, MeanOf(over, quot, shapes), shapes), shapes, i, d, c)
            + |rs| as real * SumAt(over, shapes, i, d, c)
         == quot as real * SumAt(rs, shapes, i, d, c)
  {
    var mean := MeanOf(over, quot, shapes);
    MeanAt(over, quot, shapes, i, d, c);
    ColumnSumsOf(mean, rs, shapes, i, d, c);
    Scale(quot, |rs|, SumAt(Corrected(rs, mean, shapes), shapes, i, d, c), mean[i][d][c],
          SumAt(over, shapes, i, d, c), SumAt(rs, shapes, i, d, c));
  }

  // Cells of the probes before probe i.
  function Offset(shapes: seq<Shape>, i: nat): nat
    requires i <= |shapes|
  {
    if i == 0 then 0 else Offset(shapes, i - 1) + shapes[i - 1].Size()
  }

  lemma {:induction false} CellsAt(vs: seq<real>, j: nat)
    ensures |CellsOf(vs)| == 2 * |vs|
    ensures j < |vs| ==> CellsOf(vs)[2 * j] == Cell(vs[j]) && CellsOf(vs)[2 * j + 1] == Semicolon
    decreases |vs|
  {
    if vs != [] { CellsAt(vs[..|vs| - 1], j); }
  }

  lemma {:induction false} RowLength(r: Record, shapes: seq<Shape>)
    requires IsRecord(r, shapes)
    ensures |RowOf(r)| == 2 * Offset(shapes, |shapes|)
    decreases |r|
  {
    if r != [] {
      var n := |r| - 1;
      RowLength(r[..n], shapes[..n]);
      OffsetPrefix(shapes, n, n);
      FlattenAt(r[n], shapes[n], 0, 0);
      CellsAt(Flatten(r[n]), 0);
    }
  }

  lemma {:induction false} OffsetPrefix(shapes: seq<Shape>, n: nat, i: nat)
    requires i <= n <= |shapes|
    ensures Offset(shapes[..n], i) == Offset(shapes, i)
    decreases i
  {
    if i > 0 { OffsetPrefix(shapes, n, i - 1); }
  }

  // Cell number j of a row is v.
  predicate CellAt(items: seq<Item>, j: int, v: real) {
    0 <= j && 2 * j + 1 < |items| && items[2 * j] == Cell(v) && items[2 * j + 1] == Semicolon
  }

  /** Layout: in every row the value of probe i, device d, channel c stands behind all values
      of the probes before it, in device-major order, and is followed by a ';'. */
  lemma {:induction false} RowLayout(r: Record, shapes: seq<Shape>, i: nat, d: nat, c: nat)
    requires IsRecord(r, shapes) && i < |shapes| && d < shapes[i].devices && c < shapes[i].channels
    ensures |RowOf(r)| == 2 * Offset(shapes, |shapes|)
    ensures CellAt(RowOf(r), Offset(shapes, i) + Position(shapes[i], d, c), r[i][d][c])
    decreases |r|
  {
    var n := |r| - 1;
    RowLength(r, shapes);
    if i < n {
      RowLayout(r[..n], shapes[..n], i, d, c);
      OffsetPrefix(shapes, n, i);
      InFront(RowOf(r[..n]), CellsOf(Flatten(r[n])), Offset(shapes, i) + Position(shapes[i], d, c), r[i][d][c]);
    } else {
      RowLength(r[..n], shapes[..n]);
      OffsetPrefix(shapes, n, n);
      FlattenAt(r[n], shapes[n], d, c);
      Behind(RowOf(r[..n]), Flatten(r[n]), Offset(shapes, n), Position(shapes[n], d, c));
    }
  }

  lemma InFront(a: seq<Item>, b: seq<Item>, j: int, v: real)
    requires CellAt(a, j, v)
    ensures CellAt(a + b, j, v)
  {
  }

  lemma Behind(a: seq<Item>, vs: seq<real>, o: nat, j: int)
    requires |a| == 2 * o && 0 <= j < |vs|
    ensures CellAt(a + CellsOf(vs), o + j, vs[j])
  {
    CellsAt(vs, j);
  }

  function Count(items: seq<Item>): nat {
    if items == [] then 0 else Count(items[..|items| - 1]) + (if items[|items| - 1] == Semicolon then 1 else 0)
  }

  lemma {:induction false} CountConcat(a: seq<Item>, b: seq<Item>)
    ensures Count(a + b) == Count(a) + Count(b)
    decreases |b|
  {
    if b == [] {
      assert a + b == a;
    } else {
      var n := |b| - 1;
      assert (a + b)[..|a| + n] == a + b[..n];
      CountConcat(a, b[..n]);
    }
  }

  lemma {:induction false} CountSemicolons(n: nat)
    ensures Count(Semicolons(n)) == n
  {
    if n > 0 {
      assert Semicolons(n)[..n - 1] == Semicolons(n - 1);
      CountSemicolons(n - 1);
    }
  }

  lemma CountOne(x: Item)
    ensures Count([x]) == if x == Semicolon then 1 else 0
  {
    assert [x][..0] == [];
  }

  lemma CountPair(v: real)
    ensures Count([Cell(v), Semicolon]) == 1
  {
    CountConcat([Cell(v)], [Semicolon]);
    CountOne(Cell(v));
    CountOne(Semicolon);
    assert [Cell(v)] + [Semicolon] == [Cell(v), Semicolon];
  }

  lemma {:induction false} CountCells(vs: seq<real>)
    ensures Count(CellsOf(vs)) == |vs|
    decreases |vs|
  {
    if vs != [] {
      var n := |vs| - 1;
      CountCells(vs[..n]);
      CountConcat(CellsOf(vs[..n]), [Cell(vs[n]), Semicolon]);
      CountPair(vs[n]);
    }
  }

  /** The header and every row have the same number of ';': one for each cell of each probe. */
  lemma {:induction false} SameSemicolons(labels: seq<string>, shapes: seq<Shape>, r: Record)
    requires |labels| == |shapes| && IsRecord(r, shapes)
    ensures Count(HeaderOf(labels, shapes)) == Offset(shapes, |shapes|) == Count(RowOf(r))
    decreases |r|
  {
    if r != [] {
      var n := |r| - 1;
      SameSemicolons(labels[..n], shapes[..n], r[..n]);
      OffsetPrefix(shapes, n, n);
      var front := HeaderOf(labels[..n], shapes[..n]);
      CountConcat(front + [Label(labels[n])], Semicolons(shapes[n].Size()));
      CountConcat(front, [Label(labels[n])]);
      CountOne(Label(labels[n]));
      CountSemicolons(shapes[n].Size());
      CountConcat(RowOf(r[..n]), CellsOf(Flatten(r[n])));
      CountCells(Flatten(r[n]));
      FlattenAt(r[n], shapes[n], 0, 0);
    }
  }

  // ---------- the whole file ----------

  // In the header label i stands behind the labels and ';' before it, and is followed by one
  // ';' for each of its cells.
  lemma {:induction false} HeaderLayout(labels: seq<string>, shapes: seq<Shape>, i: nat)
    requires |labels| == |shapes|
    ensures var h, at := HeaderOf(labels, shapes), (i: nat) requires i <= |shapes| => i + Offset(shapes, i);
            && |h| == at(|shapes|)
            && (i < |shapes| ==> at(i) < at(i + 1) <= |h| && h[at(i)] == Label(labels[i])
                                 && forall k :: at(i) < k < at(i + 1) ==> h[k] == Semicolon)
    decreases |labels|
  {
    if labels != [] {
      var n := |labels| - 1;
      HeaderLayout(labels[..n], shapes[..n], i);
      OffsetPrefix(shapes, n, n);
      if i < n {
        OffsetPrefix(shapes, n, i);
        OffsetPrefix(shapes, n, i + 1);
      }
    }
  }

  // Row k of equally long lines.
  lemma {:induction false} LinesAt(rs: seq<Record>, shapes: seq<Shape>, k: nat, p: nat, len: nat)
    requires Records(rs, shapes) && shapes != [] && len == 2 * Offset(shapes, |shapes|) + 1
    ensures |LinesOf(rs)| == Start(|rs|, len)
    ensures k < |rs| && p < len ==>
              && Start(k, len) + p < |LinesOf(rs)| && |LineOf(rs[k])| == len
              && LinesOf(rs)[Start(k, len) + p] == LineOf(rs[k])[p]
    decreases |rs|
  {
    NextStart(0, len);
    if rs != [] {
      var n := |rs| - 1;
      LinesAt(rs[..n], shapes, k, p, len);
      RowLength(rs[n], shapes);
      NextStart(n, len);
      assert rs[n] != [];
    }
  }

  // Where row k starts behind the header.
  function Start(k: nat, len: nat): nat { k * len }

  lemma NextStart(k: nat, len: nat)
    ensures Start(k + 1, len) == Start(k, len) + len && Start(0, len) == 0
  {
    assert (k + 1) * len == k * len + len;
  }

  // One row with its end.
  lemma LineLayout(r: Record, shapes: seq<Shape>, i: nat, d: nat, c: nat)
    requires IsRecord(r, shapes) && i < |shapes| && d < shapes[i].devices && c < shapes[i].channels
    ensures var j, n := Offset(shapes, i) + Position(shapes[i], d, c), Offset(shapes, |shapes|);
            && 0 <= j < n && |LineOf(r)| == 2 * n + 1
            && LineOf(r)[2 * j] == Cell(r[i][d][c]) && LineOf(r)[2 * j + 1] == Semicolon && LineOf(r)[2 * n] == Newline
  {
    RowLayout(r, shapes, i, d, c);
  }

  predicate ItemAt(file: seq<Item>, p: int, x: Item) {
    0 <= p < |file| && file[p] == x
  }

  lemma BehindHeader(h: seq<Item>, ls: seq<Item>, q: nat)
    ensures q < |h| ==> ItemAt(h + [Newline] + ls, q, h[q])
    ensures ItemAt(h + [Newline] + ls, |h|, Newline)
    ensures q < |ls| ==> ItemAt(h + [Newline] + ls, |h| + 1 + q, ls[q])
  {
  }

  /** Where everything stands in the first line of a file: label i behind the labels and ';'
      before it, with one ';' for each of its cells, and the line end behind them all. */
  lemma FileHeader(labels: seq<string>, shapes: seq<Shape>, cs: seq<Record>, i: nat)
    requires |labels| == |shapes| && i < |shapes|
    ensures var file := Body(labels, shapes, cs);
            && ItemAt(file, i + Offset(shapes, i), Label(labels[i]))
            && (forall p :: i + Offset(shapes, i) < p < i + 1 + Offset(shapes, i + 1) ==> ItemAt(file, p, Semicolon))
            && ItemAt(file, |shapes| + Offset(shapes, |shapes|), Newline)
  {
    var h := HeaderOf(labels, shapes);
    HeaderLayout(labels, shapes, i);
    BehindHeader(h, LinesOf(cs), i + Offset(shapes, i));
    forall p | i + Offset(shapes, i) < p < i + 1 + Offset(shapes, i + 1)
      ensures ItemAt(h + [Newline] + LinesOf(cs), p, Semicolon)
    {
      BehindHeader(h, LinesOf(cs), p);
    }
  }

  // Position p of row k.
  lemma BodyItem(labels: seq<string>, shapes: seq<Shape>, cs: seq<Record>, k: nat, p: nat, len: nat)
    requires Records(cs, shapes) && |labels| == |shapes| && shapes != [] && k < |cs|
    requires len == 2 * Offset(shapes, |shapes|) + 1 && p < len
    ensures |LineOf(cs[k])| == len
    ensures var at := |shapes| + Offset(shapes, |shapes|) + 1;
            && ItemAt(Body(labels, shapes, cs), at + Start(k, len) + p, LineOf(cs[k])[p])
            && |Body(labels, shapes, cs)| == at + Start(|cs|, len)
  {
    HeaderLayout(labels, shapes, 0);
    LinesAt(cs, shapes, k, p, len);
    BehindHeader(HeaderOf(labels, shapes), LinesOf(cs), Start(k, len) + p);
  }

  // The file has a header and these rows, and in row k the cell of probe i, device d and
  // channel c is v, in the order of probes, devices and channels; two items for each cell, and
  // a line end behind them.
  predicate RowStands(file: seq<Item>, rows: nat, shapes: seq<Shape>, k: nat, i: nat, d: nat, c: nat, v: real)
    requires i < |shapes|
  {
    var n, j := Offset(shapes, |shapes|), Offset(shapes, i) + Position(shapes[i], d, c);
    var row := |shapes| + n + 1 + Start(k, 2 * n + 1);
    && |file| == |shapes| + n + 1 + Start(rows, 2 * n + 1)
    && 0 <= j < n && ItemAt(file, row + 2 * j, Cell(v)) && ItemAt(file, row + 2 * j + 1, Semicolon)
    && ItemAt(file, row + 2 * n, Newline)
  }

  lemma BodyRow(labels: seq<string>, shapes: seq<Shape>, cs: seq<Record>, k: nat, i: nat, d: nat, c: nat)
    requires Records(cs, shapes) && |labels| == |shapes| && k < |cs|
    requires i < |shapes| && d < shapes[i].devices && c < shapes[i].channels
    ensures IsRecord(cs[k], shapes) && RowStands(Body(labels, shapes, cs), |cs|, shapes, k, i, d, c, cs[k][i][d][c])
  {
    var j, n := Offset(shapes, i) + Position(shapes[i], d, c), Offset(shapes, |shapes|);
    LineLayout(cs[k], shapes, i, d, c);
    BodyItem(labels, shapes, cs, k, 2 * j, 2 * n + 1);
    BodyItem(labels, shapes, cs, k, 2 * j + 1, 2 * n + 1);
    BodyItem(labels, shapes, cs, k, 2 * n, 2 * n + 1);
  }

  /** And in the others, for rows rs, overhead runs over and quot runs counted: every row has
      the cells of each probe, in order, each with a ';', and then a line end; and there is
      nothing behind the rows. What is written is the raw cell less the mean overhead. */
  lemma FileRow(labels: seq<string>, over: seq<Record>, quot: nat, rs: seq<Record>, shapes: seq<Shape>,
                k: nat, i: nat, d: nat, c: nat) returns (written: real)
    requires |labels| == |shapes| && quot > 0 && Records(over, shapes) && Records(rs, shapes) && k < |rs|
    requires i < |shapes| && d < shapes[i].devices && c < shapes[i].channels
    ensures RowStands(Body(labels, shapes, Corrected(rs, MeanOf(over, quot, shapes), shapes)), |rs|, shapes,
                      k, i, d, c, written)
    ensures IsRecord(rs[k], shapes) && Product(quot, rs[k][i][d][c] - written) == SumAt(over, shapes, i, d, c)
  {
    var cs := Corrected(rs, MeanOf(over, quot, shapes), shapes);
    BodyRow(labels, shapes, cs, k, i, d, c);
    CellIsRawMinusMean(over, quot, rs, shapes, k, i, d, c);
    written := cs[k][i][d][c];
  }
}
