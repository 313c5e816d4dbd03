// src/ProbeData.cpp: the values of one probe as a matrix of devices and channels.
// Values are real numbers.

module ProbeMatrix {
  import opened Arithmetic

  type Matrix = seq<seq<real>>

  datatype Shape = Shape(devices: nat, channels: nat) {
    function Size(): nat { devices * channels }
  }

  predicate IsMatrix(m: Matrix, sh: Shape) {
    |m| == sh.devices && forall d :: 0 <= d < |m| ==> |m[d]| == sh.channels
  }

  function Zero(sh: Shape): (m: Matrix)
    ensures IsMatrix(m, sh)
  {
    seq(sh.devices, _ => seq(sh.channels, _ => 0.0))
  }

  // ---------- device-major order ----------

  lemma FlatIndex(d: int, c: int, sh: Shape)
    requires 0 <= d < sh.devices && 0 <= c < sh.channels
    ensures 0 <= d * sh.channels + c < sh.Size()
  {
    MulMonotone(sh.channels, d + 1, sh.devices);
    assert sh.channels * (d + 1) == d * sh.channels + sh.channels;
    MulMonotone(sh.channels, 0, d);
  }

  function FlatAt(flat: seq<real>, sh: Shape, d: int, c: int): real
    requires |flat| >= sh.Size() && 0 <= d < sh.devices && 0 <= c < sh.channels
  {
    FlatIndex(d, c, sh);
    flat[d * sh.channels + c]
  }

  // The matrix that setData copies out of the probe's array.
  function Unflatten(flat: seq<real>, sh: Shape): (m: Matrix)
    requires |flat| >= sh.Size()
    ensures IsMatrix(m, sh)
  {
    seq(sh.devices, d requires 0 <= d < sh.devices =>
      seq(sh.channels, c requires 0 <= c < sh.channels => FlatAt(flat, sh, d, c)))
  }

  // The values in the order operator<< writes them: row after row.
  function Flatten(m: Matrix): seq<real> {
    if m == [] then [] else Flatten(m[..|m| - 1]) + m[|m| - 1]
  }

  lemma {:induction false} FlattenAt(m: Matrix, sh: Shape, d: int, c: int)
    requires IsMatrix(m, sh)
    ensures |Flatten(m)| == sh.Size()
    ensures 0 <= d < sh.devices && 0 <= c < sh.channels ==>
              0 <= d * sh.channels + c < |Flatten(m)| && Flatten(m)[d * sh.channels + c] == m[d][c]
    decreases |m|
  {
    if m != [] {
      var n := |m| - 1;
      var sh' := Shape(n, sh.channels);
      assert sh.Size() == sh'.Size() + sh.channels by { assert (n + 1) * sh.channels == n * sh.channels + sh.channels; }
      FlattenAt(m[..n], sh', d, c);
      if 0 <= d < n && 0 <= c < sh.channels {
        FlatIndex(d, c, sh');
      }
    }
  }

  function Position(sh: Shape, d: int, c: int): int { d * sh.channels + c }

  /** Every position of the flat array belongs to exactly one device and channel. */
  lemma FlatPositions(sh: Shape, k: nat)
    requires k < sh.Size()
    ensures sh.channels > 0 && k / sh.channels < sh.devices
    ensures Position(sh, k / sh.channels, k % sh.channels) == k
    ensures forall d, c :: 0 <= d < sh.devices && 0 <= c < sh.channels && Position(sh, d, c) == k ==>
              d == k / sh.channels && c == k % sh.channels
  {
    var n := sh.channels;
    RowOf(k, n, sh.devices);
    forall d, c | 0 <= d < sh.devices && 0 <= c < n && Position(sh, d, c) == k
      ensures d == k / n && c == k % n
    {
      DivMod(k, n, d, c);
    }
  }

  lemma RowOf(k: nat, n: nat, rows: nat)
    requires k < rows * n
    ensures n > 0 && k / n < rows && (k / n) * n + k % n == k
  {
    if n > 0 {
      assert n * (k / n) + k % n == k;
      MulCancel(n, k / n, rows);
    }
  }

  /** Copying a flat array into the matrix and writing the matrix out gives the array back. */
  lemma FlattenUnflatten(flat: seq<real>, sh: Shape)
    requires |flat| == sh.Size()
    ensures Flatten(Unflatten(flat, sh)) == flat
  {
    var m := Unflatten(flat, sh);
    FlattenAt(m, sh, 0, 0);
    forall k | 0 <= k < sh.Size() ensures Flatten(m)[k] == flat[k] {
      FlatPositions(sh, k);
      FlattenAt(m, sh, k / sh.channels, k % sh.channels);
    }
  }

  /** And the other way round. */
  lemma UnflattenFlatten(m: Matrix, sh: Shape)
    requires IsMatrix(m, sh)
    ensures |Flatten(m)| == sh.Size() && Unflatten(Flatten(m), sh) == m
  {
    FlattenAt(m, sh, 0, 0);
    var m' := Unflatten(Flatten(m), sh);
    forall d | 0 <= d < sh.devices ensures m'[d] == m[d] {
      forall c | 0 <= c < sh.channels ensures m'[d][c] == m[d][c] {
        FlattenAt(m, sh, d, c);
      }
    }
  }

  // ---------- cell by cell ----------

  predicate SameShape(a: Matrix, b: Matrix) {
    |a| == |b| && forall d :: 0 <= d < |a| ==> |a[d]| == |b[d]|
  }

  function Plus(a: Matrix, b: Matrix): (m: Matrix)
    requires SameShape(a, b)
    ensures |m| == |a| && forall d :: 0 <= d < |m| ==> |m[d]| == |a[d]|
    ensures forall d, c :: 0 <= d < |m| && 0 <= c < |m[d]| ==> m[d][c] == a[d][c] + b[d][c]
  {
    seq(|a|, d requires 0 <= d < |a| => seq(|a[d]|, c requires 0 <= c < |a[d]| => a[d][c] + b[d][c]))
  }

  function Minus(a: Matrix, b: Matrix): (m: Matrix)
    requires SameShape(a, b)
    ensures |m| == |a| && forall d :: 0 <= d < |m| ==> |m[d]| == |a[d]|
    ensures forall d, c :: 0 <= d < |m| && 0 <= c < |m[d]| ==> m[d][c] == a[d][c] - b[d][c]
  {
    seq(|a|, d requires 0 <= d < |a| => seq(|a[d]|, c requires 0 <= c < |a[d]| => a[d][c] - b[d][c]))
  }

  function Quotient(x: real, quot: nat): real
    requires quot > 0
  {
    x / quot as real
  }

  lemma QuotientTimes(x: real, quot: nat)
    requires quot > 0
    ensures quot as real * Quotient(x, quot) == x
  {
  }

  function Over(m: Matrix, quot: nat): (r: Matrix)
    requires quot > 0
    ensures |r| == |m| && forall d :: 0 <= d < |r| ==> |r[d]| == |m[d]|
    ensures forall d, c :: 0 <= d < |r| && 0 <= c < |r[d]| ==> r[d][c] == Quotient(m[d][c], quot)
  {
    seq(|m|, d requires 0 <= d < |m| => seq(|m[d]|, c requires 0 <= c < |m[d]| => Quotient(m[d][c], quot)))
  }

  // Times the divisor it is the matrix again.
  ghost predicate IsOver(r: Matrix, m: Matrix, quot: nat, sh: Shape)
    requires IsMatrix(r, sh) && IsMatrix(m, sh)
  {
    forall d, c :: 0 <= d < sh.devices && 0 <= c < sh.channels ==> quot as real * r[d][c] == m[d][c]
  }

  lemma OverTimes(m: Matrix, quot: nat, sh: Shape)
    requires quot > 0 && IsMatrix(m, sh)
    ensures IsMatrix(Over(m, quot), sh) && IsOver(Over(m, quot), m, quot, sh)
  {
    forall d, c | 0 <= d < sh.devices && 0 <= c < sh.channels
      ensures quot as real * Over(m, quot)[d][c] == m[d][c]
    {
      QuotientTimes(m[d][c], quot);
    }
  }

  // The two nested loops have done all cells before (d, c): these are as in target, the others
  // as in was.
  ghost predicate Progress(data: Matrix, target: Matrix, was: Matrix, sh: Shape, d: nat, c: nat) {
    && IsMatrix(data, sh) && IsMatrix(target, sh) && IsMatrix(was, sh)
    && d <= sh.devices && c <= sh.channels && (d == sh.devices ==> c == 0)
    && (forall e :: 0 <= e < d ==> data[e] == target[e])
    && (forall e :: d < e < sh.devices ==> data[e] == was[e])
    && (d < sh.devices ==> data[d] == target[d][..c] + was[d][c..])
  }

  lemma ProgressStarts(was: Matrix, target: Matrix, sh: Shape)
    requires IsMatrix(was, sh) && IsMatrix(target, sh)
    ensures Progress(was, target, was, sh, 0, 0)
  {
  }

  lemma ProgressCell(data: Matrix, target: Matrix, was: Matrix, sh: Shape, d: nat, c: nat)
    requires Progress(data, target, was, sh, d, c) && d < sh.devices && c < sh.channels
    ensures data[d][c] == was[d][c]
    ensures Progress(data[d := data[d][c := target[d][c]]], target, was, sh, d, c + 1)
  {
    var row := data[d][c := target[d][c]];
    assert row == target[d][..c + 1] + was[d][c + 1..];
  }

  lemma ProgressWith(data: Matrix, target: Matrix, was: Matrix, sh: Shape, d: nat, c: nat, v: real)
    requires Progress(data, target, was, sh, d, c) && d < sh.devices && c < sh.channels && target[d][c] == v
    ensures Progress(data[d := data[d][c := v]], target, was, sh, d, c + 1)
  {
    ProgressCell(data, target, was, sh, d, c);
  }

  lemma ProgressRow(data: Matrix, target: Matrix, was: Matrix, sh: Shape, d: nat)
    requires Progress(data, target, was, sh, d, sh.channels) && d < sh.devices
    ensures Progress(data, target, was, sh, d + 1, 0)
  {
  }

  lemma ProgressEnds(data: Matrix, target: Matrix, was: Matrix, sh: Shape)
    requires Progress(data, target, was, sh, sh.devices, 0)
    ensures data == target
  {
  }

  class ProbeData {
    const shape: Shape
    var data: Matrix

    ghost predicate Valid()
      reads this
    {
      IsMatrix(data, shape)
    }

    constructor (nbDevices: nat, nbChannels: nat)
      ensures Valid() && shape == Shape(nbDevices, nbChannels) && data == Zero(shape)
    {
      shape := Shape(nbDevices, nbChannels);
      data := Zero(Shape(nbDevices, nbChannels));
    }

    method SetData(pData: array<real>)
      requires Valid() && pData.Length >= shape.Size()
      modifies this
      ensures Valid() && data == Unflatten(pData[..], shape)
    {
      ghost var was, target := data, Unflatten(pData[..], shape);
      ProgressStarts(was, target, shape);
      var device := 0;
      while device < shape.devices
        invariant Progress(data, target, was, shape, device, 0)
      {
        var channel := 0;
        while channel < shape.channels
          invariant Progress(data, target, was, shape, device, channel)
        {
          FlatIndex(device, channel, shape);
          ProgressCell(data, target, was, shape, device, channel);
          data := data[device := data[device][channel := pData[device * shape.channels + channel]]];
          channel := channel + 1;
        }
        ProgressRow(data, target, was, shape, device);
        device := device + 1;
      }
      ProgressEnds(data, target, was, shape);
    }

    // operator+=
    method Add(pd: Matrix)
      requires Valid() && IsMatrix(pd, shape)
      modifies this
      ensures Valid() && data == Plus(old(data), pd)
    {
      ghost var was, target := data, Plus(data, pd);
      ProgressStarts(was, target, shape);
      var device := 0;
      while device < shape.devices
        invariant Progress(data, target, was, shape, device, 0)
      {
        var channel := 0;
        while channel < shape.channels
          invariant Progress(data, target, was, shape, device, channel)
        {
          ProgressCell(data, target, was, shape, device, channel);
          data := data[device := data[device][channel := data[device][channel] + pd[device][channel]]];
          channel := channel + 1;
        }
        ProgressRow(data, target, was, shape, device);
        device := device + 1;
      }
      ProgressEnds(data, target, was, shape);
    }

    // operator/=. The result is false when some cell is divided by 0: reals have no infinities,
    // so nothing is said about the cells then.
    method Divide(quot: nat) returns (finite: bool)
      requires Valid()
      modifies this
      ensures Valid() && (finite <==> quot > 0 || shape.devices == 0 || shape.channels == 0)
      ensures quot > 0 ==> data == Over(old(data), quot)
      ensures quot > 0 ==> IsOver(data, old(data), quot, shape)
      ensures finite && quot == 0 ==> data == old(data)
    {
      if quot == 0 { return shape.devices == 0 || shape.channels == 0; }
      ghost var was, target := data, Over(data, quot);
      ProgressStarts(was, target, shape);
      var device := 0;
      while device < shape.devices
        invariant Progress(data, target, was, shape, device, 0)
      {
        var channel := 0;
        while channel < shape.channels
          invariant Progress(data, target, was, shape, device, channel)
        {
          ProgressCell(data, target, was, shape, device, channel);
          data := data[device := data[device][channel := Quotient(data[device][channel], quot)]];
          channel := channel + 1;
        }
        ProgressRow(data, target, was, shape, device);
        device := device + 1;
      }
      ProgressEnds(data, target, was, shape);
      OverTimes(was, quot, shape);
      finite := true;
    }
  }

  // operator-, into a fresh ProbeData
  method Difference(pd1: Matrix, pd2: Matrix, shape: Shape) returns (pPD: ProbeData)
    requires IsMatrix(pd1, shape) && IsMatrix(pd2, shape)
    ensures fresh(pPD) && pPD.Valid() && pPD.shape == shape && pPD.data == Minus(pd1, pd2)
  {
    pPD := new ProbeData(shape.devices, shape.channels);
    ghost var was, target := pPD.data, Minus(pd1, pd2);
    ProgressStarts(was, target, shape);
    var device := 0;
    while device < shape.devices
      invariant Progress(pPD.data, target, was, shape, device, 0)
    {
      var channel := 0;
      while channel < shape.channels
        invariant Progress(pPD.data, target, was, shape, device, channel)
      {
        var v := pd1[device][channel] - pd2[device][channel];
        ProgressWith(pPD.data, target, was, shape, device, channel, v);
        pPD.data := pPD.data[device := pPD.data[device][channel := v]];
        channel := channel + 1;
      }
      ProgressRow(pPD.data, target, was, shape, device);
      device := device + 1;
    }
    ProgressEnds(pPD.data, target, was, shape);
  }
}
