/**
 * Viewer3DNodeImageToVTK: turns one volume descriptor into a VTK image grid (dimensions, origin,
 * spacing and a flat scalar array), publishing load progress while it samples, and caches the grids
 * by the volume's key.
 */
module ImageToVtk {
  import opened Outcomes
  import opened AxisState
  import opened AxisSet
  import opened LoadImageEvents
  import opened EventBus

  /** MINDIMS: an image needs at least this many dimensions to be shown in 3-D. */
  const MinDims := 3

  /** An averageScale value: a calibration, or NaN. */
  datatype Scale = Calibrated(value: real) | NotANumber

  /** The voxel side along one axis: the calibration when it is positive, 1.0 otherwise. */
  function Spacing(s: Scale): (r: real)
    ensures r > 0.0
    ensures s.Calibrated? && s.value > 0.0 ==> r == s.value
    ensures s.NotANumber? || s.value <= 0.0 ==> r == 1.0
  {
    if s.NotANumber? || s.value <= 0.0 then 1.0 else s.value
  }

  /**
   * The image to convert: per dimension its axis label, extent and scale, and the value stored at
   * each position (already converted to the short range the grid holds).
   */
  datatype Image = Image(labels: seq<string>, dims: seq<nat>, scales: seq<Scale>, sample: seq<int> -> int)
  {
    predicate WellFormed() {
      |labels| == |dims| == |scales|
    }
  }

  /** dimensionIndex: the first dimension carrying the label. */
  function FirstIndex(labels: seq<string>, l: string): (i: nat)
    requires l in labels
    ensures i < |labels| && labels[i] == l
    ensures forall k :: 0 <= k < i ==> labels[k] != l
  {
    if labels[0] == l then 0 else 1 + FirstIndex(labels[1..], l)
  }

  /** The label to dimension map the constructor fills: every label of the image to its first dimension. */
  function DimensionMap(labels: seq<string>): (m: map<string, int>)
    ensures forall l :: l in m <==> l in labels
    ensures forall l :: l in m ==> 0 <= m[l] < |labels| && labels[m[l]] == l
  {
    map l | l in labels :: FirstIndex(labels, l)
  }

  ghost predicate DimsBelow(m: map<string, int>, n: int) {
    forall l :: l in m ==> 0 <= m[l] < n
  }

  /** The dimensions shown as x, y and z. */
  datatype Layout = Layout(xDim: int, yDim: int, zDim: int)
  {
    predicate Within(n: int) {
      0 <= xDim < n && 0 <= yDim < n && 0 <= zDim < n
    }
  }

  /** m_dimensionMap.get(displayed.get(i).getLabel()).intValue(). */
  function DimOf(m: map<string, int>, ds: seq<Axis>, i: nat): (r: Result<int>)
    ensures r.Success? ==> r.value in m.Values
  {
    if i >= |ds| then Failure(IndexOutOfBounds)
    else if ds[i].axisLabel !in m then Failure(NullPointer)
    else Success(m[ds[i].axisLabel])
  }

  /** The dimensions of the first three displayed axes, looked up in the order x, y, z. */
  function DisplayedDims(m: map<string, int>, ds: seq<Axis>): (r: Result<Layout>)
    ensures r.Success? <==> |ds| >= 3 && ds[0].axisLabel in m && ds[1].axisLabel in m && ds[2].axisLabel in m
    ensures r.Success? ==> r.value == Layout(m[ds[0].axisLabel], m[ds[1].axisLabel], m[ds[2].axisLabel])
  {
    var x :- DimOf(m, ds, 0);
    var y :- DimOf(m, ds, 1);
    var z :- DimOf(m, ds, 2);
    Success(Layout(x, y, z))
  }

  /**
   * The cursor position before sampling: each hidden axis's dimension set to its recorded depth, axis
   * after axis; a label without a dimension or an axis without a depth throws.
   */
  function HiddenPosition(m: map<string, int>, hs: seq<Axis>, depthMap: map<Axis, int>, pos: seq<int>): (r: Result<seq<int>>)
    requires DimsBelow(m, |pos|)
    ensures r.Success? <==> forall i :: 0 <= i < |hs| ==> hs[i].axisLabel in m && hs[i] in depthMap
    ensures r.Failure? ==> r.error == NullPointer
    ensures r.Success? ==> |r.value| == |pos|
    decreases |hs|
  {
    if hs == [] then Success(pos)
    else if hs[0].axisLabel !in m || hs[0] !in depthMap then Failure(NullPointer)
    else
      assert forall i :: 0 < i < |hs| ==> hs[1..][i - 1] == hs[i];
      HiddenPosition(m, hs[1..], depthMap, pos[m[hs[0].axisLabel] := depthMap[hs[0]]])
  }

  /** With one dimension per hidden axis, each hidden dimension of the position holds its axis's depth. */
  lemma {:induction false} HiddenPositionAt(m: map<string, int>, hs: seq<Axis>, depthMap: map<Axis, int>, pos: seq<int>)
    requires DimsBelow(m, |pos|)
    requires forall i :: 0 <= i < |hs| ==> hs[i].axisLabel in m && hs[i] in depthMap
    requires forall i, j :: 0 <= i < j < |hs| ==> m[hs[i].axisLabel] != m[hs[j].axisLabel]
    ensures forall i :: 0 <= i < |hs| ==> HiddenPosition(m, hs, depthMap, pos).value[m[hs[i].axisLabel]] == depthMap[hs[i]]
    ensures forall k :: 0 <= k < |pos| && (forall i :: 0 <= i < |hs| ==> m[hs[i].axisLabel] != k) ==>
              HiddenPosition(m, hs, depthMap, pos).value[k] == pos[k]
    decreases |hs|
  {
    if hs != [] {
      var d := m[hs[0].axisLabel];
      var next := pos[d := depthMap[hs[0]]];
      assert forall i :: 0 <= i < |hs[1..]| ==> hs[1..][i] == hs[i + 1];
      assert forall i, j :: 0 <= i < j < |hs[1..]| ==> m[hs[1..][i].axisLabel] != m[hs[1..][j].axisLabel] by {
        forall i, j | 0 <= i < j < |hs[1..]| ensures m[hs[1..][i].axisLabel] != m[hs[1..][j].axisLabel] {
          assert hs[1..][i] == hs[i + 1] && hs[1..][j] == hs[j + 1];
        }
      }
      HiddenPositionAt(m, hs[1..], depthMap, next);
      var r := HiddenPosition(m, hs, depthMap, pos).value;
      assert r == HiddenPosition(m, hs[1..], depthMap, next).value;
      forall i | 0 <= i < |hs| ensures r[m[hs[i].axisLabel]] == depthMap[hs[i]] {
        if i == 0 {
          forall k | 0 <= k < |hs[1..]| ensures m[hs[1..][k].axisLabel] != d {
            assert hs[1..][k] == hs[k + 1];
          }
        } else {
          assert hs[1..][i - 1] == hs[i];
        }
      }
      forall k | 0 <= k < |pos| && (forall i :: 0 <= i < |hs| ==> m[hs[i].axisLabel] != k) ensures r[k] == pos[k] {
        assert m[hs[0].axisLabel] != k;
        forall i | 0 <= i < |hs[1..]| ensures m[hs[1..][i].axisLabel] != k {
          assert hs[1..][i] == hs[i + 1];
        }
      }
    }
  }

  // ---------------------------------------------------------------------------------------------
  // The slow path's z/y/x scan

  /** One row: x running over the x extent, the other coordinates fixed. */
  function Row(sample: seq<int> -> int, pos: seq<int>, xd: int, nx: nat): (r: seq<int>)
    requires 0 <= xd < |pos|
    ensures |r| == nx
    ensures forall x :: 0 <= x < nx ==> r[x] == sample(pos[xd := x])
  {
    seq(nx, x requires 0 <= x < nx => sample(pos[xd := x]))
  }

  /** The first ny rows of one plane, y outer and x inner. */
  function Plane(sample: seq<int> -> int, pos: seq<int>, yd: int, xd: int, ny: nat, nx: nat): (r: seq<int>)
    requires 0 <= yd < |pos| && 0 <= xd < |pos|
    ensures |r| == ny * nx
    decreases ny
  {
    if ny == 0 then []
    else
      var r := Plane(sample, pos, yd, xd, ny - 1, nx) + Row(sample, pos[yd := ny - 1], xd, nx);
      assert (ny - 1) * nx + nx == ny * nx;
      r
  }

  /** The first nz planes of the grid: z outermost, then y, then x. */
  function Scan(sample: seq<int> -> int, pos: seq<int>, zd: int, yd: int, xd: int, nz: nat, ny: nat, nx: nat): (r: seq<int>)
    requires 0 <= zd < |pos| && 0 <= yd < |pos| && 0 <= xd < |pos|
    ensures |r| == nz * (ny * nx)
    decreases nz
  {
    if nz == 0 then []
    else
      var r := Scan(sample, pos, zd, yd, xd, nz - 1, ny, nx) + Plane(sample, pos[zd := nz - 1], yd, xd, ny, nx);
      assert (nz - 1) * (ny * nx) + ny * nx == nz * (ny * nx);
      r
  }

  lemma {:induction false} PlaneAt(sample: seq<int> -> int, pos: seq<int>, yd: int, xd: int, ny: nat, nx: nat, y: int, x: int)
    requires 0 <= yd < |pos| && 0 <= xd < |pos| && 0 <= y < ny && 0 <= x < nx
    ensures 0 <= x + nx * y < ny * nx
    ensures Plane(sample, pos, yd, xd, ny, nx)[x + nx * y] == sample(pos[yd := y][xd := x])
    decreases ny
  {
    assert x + nx * y < nx * (y + 1) <= nx * ny;
    if y < ny - 1 {
      PlaneAt(sample, pos, yd, xd, ny - 1, nx, y, x);
    } else {
      assert |Plane(sample, pos, yd, xd, ny - 1, nx)| == nx * y;
    }
  }

  /** Entry off of plane z sits at z * (ny * nx) + off of the scan. */
  lemma {:induction false} ScanPlaneAt(sample: seq<int> -> int, pos: seq<int>, zd: int, yd: int, xd: int,
                                       nz: nat, ny: nat, nx: nat, z: int, off: int)
    requires 0 <= zd < |pos| && 0 <= yd < |pos| && 0 <= xd < |pos|
    requires 0 <= z < nz && 0 <= off < ny * nx
    ensures z * (ny * nx) + off < nz * (ny * nx)
    ensures Scan(sample, pos, zd, yd, xd, nz, ny, nx)[z * (ny * nx) + off] == Plane(sample, pos[zd := z], yd, xd, ny, nx)[off]
    decreases nz
  {
    PlaneFits(z, nz, ny * nx, nz * (ny * nx));
    if z < nz - 1 {
      ScanPlaneAt(sample, pos, zd, yd, xd, nz - 1, ny, nx, z, off);
    }
  }

  /** In the slow path the sample at (x, y, z) lands at index x + dx*(y + dy*z). */
  lemma ScanAt(sample: seq<int> -> int, pos: seq<int>, zd: int, yd: int, xd: int,
               nz: nat, ny: nat, nx: nat, z: int, y: int, x: int)
    requires 0 <= zd < |pos| && 0 <= yd < |pos| && 0 <= xd < |pos|
    requires 0 <= z < nz && 0 <= y < ny && 0 <= x < nx
    ensures 0 <= x + nx * (y + ny * z) < nx * ny * nz
    ensures Scan(sample, pos, zd, yd, xd, nz, ny, nx)[x + nx * (y + ny * z)] == sample(pos[zd := z][yd := y][xd := x])
  {
    PlaneAt(sample, pos[zd := z], yd, xd, ny, nx, y, x);
    IndexSplit(x, y, z, ny, nx);
    ScanPlaneAt(sample, pos, zd, yd, xd, nz, ny, nx, z, x + nx * y);
    ProductOrder(nx, ny, nz);
  }

  lemma MulMono(a: int, b: int, c: int)
    requires a <= b && c >= 0
    ensures a * c <= b * c
  {
  }

  lemma ProductOrder(nx: int, ny: int, nz: int)
    ensures nx * ny * nz == nz * (ny * nx)
  {
  }

  lemma Distrib(a: int, b: int, c: int)
    ensures (a + b) * c == a * c + b * c
  {
  }

  lemma IndexSplit(x: int, y: int, z: int, ny: int, nx: int)
    ensures x + nx * (y + ny * z) == (x + nx * y) + z * (ny * nx)
  {
  }

  /** The row about to be scanned ends inside the grid. */
  lemma ScanBound(z: int, y: int, nz: nat, ny: nat, nx: nat)
    requires 0 <= z < nz && 0 <= y < ny
    ensures z * (ny * nx) + y * nx + nx <= nx * ny * nz
  {
    MulMono(y + 1, ny, nx);
    Distrib(y, 1, nx);
    MulMono(z + 1, nz, ny * nx);
    Distrib(z, 1, ny * nx);
    ProductOrder(nx, ny, nz);
  }

  lemma RowFits(count: int, y: int, ny: int, nx: nat, len: int)
    requires 0 <= y < ny && count + ny * nx <= len
    ensures count + y * nx + nx <= len
  {
    MulMono(y + 1, ny, nx);
    Distrib(y, 1, nx);
  }

  lemma PlaneFits(z: int, nz: int, area: nat, total: int)
    requires 0 <= z < nz && total == nz * area
    ensures (z + 1) * area == z * area + area <= total
  {
    MulMono(z + 1, nz, area);
    Distrib(z, 1, area);
  }

  lemma ZeroProduct(a: nat, b: nat)
    ensures a * b == 0 <==> a == 0 || b == 0
  {
  }

  lemma PositiveProduct(nx: nat, ny: nat, nz: nat)
    requires nx > 0 && ny > 0 && nz > 0
    ensures nx * ny * nz > 0
  {
  }

  /** A row does not depend on what the position held in the x slot before. */
  lemma RowAgree(sample: seq<int> -> int, p: seq<int>, q: seq<int>, xd: int, nx: nat)
    requires |p| == |q| && 0 <= xd < |p|
    requires forall k :: 0 <= k < |p| && k != xd ==> p[k] == q[k]
    ensures Row(sample, p, xd, nx) == Row(sample, q, xd, nx)
  {
    forall x | 0 <= x < nx ensures Row(sample, p, xd, nx)[x] == Row(sample, q, xd, nx)[x] {
      assert p[xd := x] == q[xd := x];
    }
  }

  /** A plane does not depend on what the position held in the x and y slots before. */
  lemma {:induction false} PlaneAgree(sample: seq<int> -> int, p: seq<int>, q: seq<int>, yd: int, xd: int, ny: nat, nx: nat)
    requires |p| == |q| && 0 <= yd < |p| && 0 <= xd < |p|
    requires forall k :: 0 <= k < |p| && k != xd && k != yd ==> p[k] == q[k]
    ensures Plane(sample, p, yd, xd, ny, nx) == Plane(sample, q, yd, xd, ny, nx)
    decreases ny
  {
    if ny > 0 {
      PlaneAgree(sample, p, q, yd, xd, ny - 1, nx);
      RowAgree(sample, p[yd := ny - 1], q[yd := ny - 1], xd, nx);
    }
  }

  // ---------------------------------------------------------------------------------------------
  // Load progress

  lemma ProgressBound(count: nat, step: int)
    requires step > 100 && count <= 100 * step + 99
    ensures count / step <= 100
  {
    assert (count / step) * step <= count < 101 * step;
  }

  /**
   * The events published while the first count samples are stored: a LoadImageEvent of count / step
   * whenever count % step == 100. A step of 0 publishes nothing because the modulo throws first.
   */
  function ProgressEvents(count: nat, step: int): (r: seq<Event>)
    requires count <= 100 * step + 99
    decreases count
  {
    if count == 0 || step <= 0 then []
    else if count % step == 100 then
      ProgressBound(count, step);
      ProgressEvents(count - 1, step) + [LoadImage(LoadImageEvent(count / step))]
    else ProgressEvents(count - 1, step)
  }

  /** The events 0, 1, ..., k - 1. */
  function Percentages(k: nat): (r: seq<Event>)
    requires k <= 101
    ensures |r| == k && forall q :: 0 <= q < k ==> r[q] == LoadImage(LoadImageEvent(q))
  {
    seq(k, q requires 0 <= q < k => LoadImage(LoadImageEvent(q)))
  }

  lemma MulBelowOne(k: int, s: int)
    requires s > 0 && k * s < s
    ensures k < 1
  {
  }

  lemma MulAboveMinusOne(k: int, s: int)
    requires s > 0 && k * s > -s
    ensures k > -1
  {
  }

  /** Euclidean division has one quotient and one remainder. */
  lemma DivUnique(n: int, s: int, q: int, r: int)
    requires s > 0 && 0 <= r < s && n == q * s + r
    ensures n / s == q && n % s == r
  {
    var q', r' := n / s, n % s;
    assert n == q' * s + r';
    assert (q - q') * s == r' - r;
    MulBelowOne(q - q', s);
    MulAboveMinusOne(q - q', s);
  }

  /** How many progress events the first count samples publish when step > 100. */
  function Published(count: nat, step: int): nat
    requires step > 100
  {
    if count < 100 then 0 else (count - 100) / step + 1
  }

  lemma PublishedStep(count: nat, step: int)
    requires step > 100 && count >= 1
    ensures Published(count, step) == Published(count - 1, step) + (if count % step == 100 then 1 else 0)
    ensures count % step == 100 ==> count / step == Published(count - 1, step)
  {
    if count == 100 {
      DivUnique(count, step, 0, 100);
    } else if count > 100 {
      var a := count - 100;
      var q, r := a / step, a % step;
      assert a == q * step + r;
      if r == 0 {
        DivUnique(a - 1, step, q - 1, step - 1);
        DivUnique(count, step, q, 100);
      } else {
        DivUnique(a - 1, step, q, r - 1);
        if r + 100 < step {
          DivUnique(count, step, q, r + 100);
        } else {
          DivUnique(count, step, q + 1, r + 100 - step);
        }
      }
    } else {
      DivUnique(count, step, 0, count);
    }
  }

  lemma {:induction false} ProgressPrefix(count: nat, step: int)
    requires step > 100 && count <= 100 * step + 99
    ensures Published(count, step) <= 100
    ensures ProgressEvents(count, step) == Percentages(Published(count, step))
    decreases count
  {
    if count >= 100 {
      var k := (count - 100) / step;
      assert k * step <= count - 100 < 100 * step;
    }
    if count > 0 {
      ProgressPrefix(count - 1, step);
      PublishedStep(count, step);
    }
  }

  /** With step = N/100 above 100, exactly the progress values 0..99 are published, once each, in order. */
  lemma ProgressAboveHundred(n: nat)
    requires n / 100 > 100
    ensures ProgressEvents(n, n / 100) == Percentages(100)
  {
    var step := n / 100;
    ProgressPrefix(n, step);
    DivUnique(n - 100, step, 99, n - 100 - 99 * step);
  }

  /** With 0 < step <= 100 the remainder never reaches 100, so nothing is published. */
  lemma {:induction false} NoProgressUpToHundred(count: nat, step: int)
    requires 0 < step <= 100 && count <= 100 * step + 99
    ensures ProgressEvents(count, step) == []
    decreases count
  {
    if count > 0 {
      NoProgressUpToHundred(count - 1, step);
    }
  }

  // ---------------------------------------------------------------------------------------------
  // Conversion

  /** What a conversion produces: the layout, the scalar array, the number of samples and the step. */
  datatype Built = Built(layout: Layout, scalars: seq<int>, count: nat, step: int)

  /**
   * getVTKImageData on a cache miss. The displayed dimensions are looked up first, then the hidden
   * position; N samples are taken in z/y/x order, and the progress modulo throws when 0 < N < 100.
   */
  function Conversion(img: Image, m: map<string, int>, ds: seq<Axis>, hs: seq<Axis>, depthMap: map<Axis, int>): (r: Result<Built>)
    requires img.WellFormed() && DimsBelow(m, |img.dims|)
    ensures DisplayedDims(m, ds).Failure? ==> r == Failure(DisplayedDims(m, ds).error)
    ensures r.Success? ==> DisplayedDims(m, ds).Success? && r.value.layout == DisplayedDims(m, ds).value
    ensures r.Success? ==> r.value.layout.Within(|img.dims|)
    ensures r.Success? ==> r.value.count == |r.value.scalars| == img.dims[r.value.layout.xDim] * img.dims[r.value.layout.yDim] * img.dims[r.value.layout.zDim]
    ensures r.Success? ==> r.value.step == r.value.count / 100 && !(0 < r.value.count < 100)
  {
    var layout :- DisplayedDims(m, ds);
    var pos :- HiddenPosition(m, hs, depthMap, Zeros(|img.dims|));
    var nx, ny, nz := img.dims[layout.xDim], img.dims[layout.yDim], img.dims[layout.zDim];
    var n := nx * ny * nz;
    if 0 < n < 100 then Failure(Arithmetic)
    else
      var scalars := Scan(img.sample, pos, layout.zDim, layout.yDim, layout.xDim, nz, ny, nx);
      assert |scalars| == n;
      Success(Built(layout, scalars, n, n / 100))
  }

  /** vtkImageData: dimensions, origin, spacing and the point scalars, and whether Delete() was called. */
  class Grid {
    const dimX: nat
    const dimY: nat
    const dimZ: nat
    const origin: (real, real, real)
    const spacing: (real, real, real)
    const scalars: seq<int>
    var deleted: bool

    constructor (dimX: nat, dimY: nat, dimZ: nat, spacing: (real, real, real), scalars: seq<int>)
      ensures this.dimX == dimX && this.dimY == dimY && this.dimZ == dimZ
      ensures origin == (0.0, 0.0, 0.0) && this.spacing == spacing && this.scalars == scalars
      ensures !deleted
    {
      this.dimX, this.dimY, this.dimZ := dimX, dimY, dimZ;
      origin := (0.0, 0.0, 0.0);
      this.spacing := spacing;
      this.scalars := scalars;
      deleted := false;
    }

    /** Delete(): release the native object. */
    method Delete()
      modifies this
      ensures deleted
    {
      deleted := true;
    }

    /** The grid built from img for conversion b: extents and spacings of x, y, z, origin 0, the scanned samples. */
    ghost predicate Shows(img: Image, b: Built)
      requires img.WellFormed() && b.layout.Within(|img.dims|)
    {
      && dimX == img.dims[b.layout.xDim] && dimY == img.dims[b.layout.yDim] && dimZ == img.dims[b.layout.zDim]
      && origin == (0.0, 0.0, 0.0)
      && spacing == (Spacing(img.scales[b.layout.xDim]), Spacing(img.scales[b.layout.yDim]), Spacing(img.scales[b.layout.zDim]))
      && scalars == b.scalars
    }
  }

  /** Viewer3DNodeImageToVTK. */
  class Converter {
    const image: Image
    const dimensionMap: map<string, int>
    const events: EventService
    var caching: bool
    var createdImages: map<string, Grid>

    ghost predicate Valid()
      reads this
    {
      image.WellFormed() && |image.labels| >= MinDims && dimensionMap == DimensionMap(image.labels)
    }

    constructor (image: Image, caching: bool, events: EventService)
      requires image.WellFormed() && |image.labels| >= MinDims
      ensures this.image == image && this.caching == caching && this.events == events
      ensures createdImages == map[]
      ensures Valid()
    {
      var labels := image.labels;
      var m: map<string, int> := map[];
      for d := 0 to |labels|
        invariant forall l :: l in m <==> l in labels[..d]
        invariant forall l :: l in m ==> l in labels && m[l] == FirstIndex(labels, l)
      {
        assert labels[..d + 1] == labels[..d] + [labels[d]];
        m := m[labels[d] := FirstIndex(labels, labels[d])];
      }
      assert labels[..|labels|] == labels;
      assert m == DimensionMap(labels);
      this.image := image;
      this.events := events;
      this.caching := caching;
      dimensionMap := m;
      createdImages := map[];
    }

    /** The public constructor: a null event service is rejected before the number of dimensions is checked. */
    static method New(image: Image, caching: bool, events: EventService?) returns (r: Result<Converter>)
      requires image.WellFormed()
      ensures r.Success? <==> events != null && |image.labels| >= MinDims
      ensures r.Failure? ==> r.error == if events == null then IllegalArgument else NotEnoughDims
      ensures r.Success? ==> fresh(r.value) && r.value.Valid() && r.value.image == image
      ensures r.Success? ==> r.value.caching == caching && r.value.events == events && r.value.createdImages == map[]
    {
      if events == null {
        return Failure(IllegalArgument);
      }
      if |image.labels| < MinDims {
        return Failure(NotEnoughDims);
      }
      var c := new Converter(image, caching, events);
      r := Success(c);
    }

    /** Every dimension the label map names is a dimension of the image. */
    lemma MapDimsBelow()
      requires Valid()
      ensures DimsBelow(dimensionMap, |image.dims|)
    {
    }

    /** The volume's conversion, as the miss path of getVTKImageData computes it. */
    ghost function ConversionOf(volume: Volume): Result<Built>
      requires Valid()
      reads this, volume, volume.displayed, volume.hidden
    {
      Conversion(image, dimensionMap, volume.displayed.items, volume.hidden.items, volume.depthMap)
    }

    /**
     * r is what a conversion as spec says yields: its error with no event published, or a fresh grid
     * showing it, published after its progress events.
     */
    twostate predicate Yields(new r: Result<Grid>, spec: Result<Built>)
      requires Valid()
      reads this, events, if r.Success? then {r.value} else {}
    {
      && (r.Success? <==> spec.Success?)
      && (r.Failure? ==> r.error == spec.error && events.published == old(events.published))
      && (r.Success? ==> fresh(r.value) && !r.value.deleted && spec.value.layout.Within(|image.dims|)
                         && spec.value.step == spec.value.count / 100 && r.value.Shows(image, spec.value)
                         && events.published == old(events.published) + ProgressEvents(spec.value.count, spec.value.step))
    }

    /**
     * getVTKImageData: the cached grid on a hit while caching; otherwise a fresh grid built as
     * the conversion says, with its progress events, stored under the key iff caching is on.
     */
    method GetVTKImageData(volume: Volume?) returns (r: Result<Grid>)
      requires Valid()
      modifies this, events
      ensures caching == old(caching)
      ensures volume == null ==> r == Failure(NullPointer) && unchanged(this, events)
      ensures volume != null && old(caching) && old(volume.CacheKey()) in old(createdImages) ==>
                r == Success(old(createdImages)[old(volume.CacheKey())]) && unchanged(this, events)
      ensures volume != null && !(old(caching) && old(volume.CacheKey()) in old(createdImages)) ==>
                && Yields(r, old(ConversionOf(volume)))
                && createdImages == if r.Success? && caching then old(createdImages)[old(volume.CacheKey()) := r.value]
                                    else old(createdImages)
    {
      if volume == null {
        return Failure(NullPointer);
      }
      var store := volume.GetCacheString();
      if caching && store in createdImages {
        return Success(createdImages[store]);
      }
      var grid :- NewGrid(volume);
      if caching {
        createdImages := createdImages[store := grid];
      }
      r := Success(grid);
    }

    /** The miss path of getVTKImageData: the grid's extents, origin and spacing, then buildArray. */
    method NewGrid(volume: Volume) returns (r: Result<Grid>)
      requires Valid()
      modifies events
      ensures Yields(r, ConversionOf(volume))
    {
      MapDimsBelow();
      var layout :- DisplayedDims(dimensionMap, volume.displayed.items);
      var x, y, z := layout.xDim, layout.yDim, layout.zDim;
      var spacing := (Spacing(image.scales[x]), Spacing(image.scales[y]), Spacing(image.scales[z]));
      var data :- BuildArray(volume);
      var grid := new Grid(image.dims[x], image.dims[y], image.dims[z], spacing, data);
      r := Success(grid);
    }

    /** buildArray (slow path): the scan of Conversion, with its progress events. */
    method BuildArray(volume: Volume) returns (r: Result<seq<int>>)
      requires Valid()
      modifies events
      ensures var spec := Conversion(image, dimensionMap, volume.displayed.items, volume.hidden.items, volume.depthMap);
              && (r.Success? <==> spec.Success?)
              && (r.Failure? ==> r.error == spec.error && events.published == old(events.published))
              && (r.Success? ==> r.value == spec.value.scalars
                                 && events.published == old(events.published) + ProgressEvents(spec.value.count, spec.value.step))
    {
      MapDimsBelow();
      var layout :- DisplayedDims(dimensionMap, volume.displayed.items);
      var pos :- HiddenBase(volume);
      r := ScanVolume(pos, layout.xDim, layout.yDim, layout.zDim);
    }

    /** The hidden-axis loop of buildArray: every hidden axis's dimension set to its depth, in turn. */
    method HiddenBase(volume: Volume) returns (r: Result<array<int>>)
      requires Valid()
      ensures DimsBelow(dimensionMap, |image.dims|)
      ensures var spec := HiddenPosition(dimensionMap, volume.hidden.items, volume.depthMap, Zeros(|image.dims|));
              && (r.Success? <==> spec.Success?)
              && (r.Failure? ==> r.error == NullPointer)
              && (r.Success? ==> fresh(r.value) && r.value[..] == spec.value)
    {
      MapDimsBelow();
      var n := |image.dims|;
      var pos := new int[n](_ => 0);
      var hs := volume.hidden.items;
      assert pos[..] == Zeros(n) && hs[0..] == hs;
      for i := 0 to |hs|
        invariant HiddenPosition(dimensionMap, hs, volume.depthMap, Zeros(n))
                  == HiddenPosition(dimensionMap, hs[i..], volume.depthMap, pos[..])
      {
        var a := hs[i];
        assert hs[i..][1..] == hs[i + 1..];
        if a.axisLabel !in dimensionMap {
          return Failure(NullPointer);
        }
        var dim := dimensionMap[a.axisLabel];
        var depth := volume.GetDepth(a);
        if depth.Failure? {
          return Failure(depth.error);
        }
        pos[dim] := depth.value;
      }
      assert hs[|hs|..] == [];
      r := Success(pos);
    }

    /**
     * The z loop of buildArray's slow path over the grid of the three displayed dimensions, starting
     * from the hidden position in pos.
     */
    method ScanVolume(pos: array<int>, xd: int, yd: int, zd: int) returns (r: Result<seq<int>>)
      requires pos.Length == |image.dims|
      requires 0 <= xd < pos.Length && 0 <= yd < pos.Length && 0 <= zd < pos.Length
      modifies pos, events
      ensures var total := image.dims[xd] * image.dims[yd] * image.dims[zd];
              && (r.Success? <==> !(0 < total < 100))
              && (r.Failure? ==> r.error == Arithmetic && events.published == old(events.published))
              && (r.Success? ==> r.value == Scan(image.sample, old(pos[..]), zd, yd, xd, image.dims[zd], image.dims[yd], image.dims[xd])
                                 && events.published == old(events.published) + ProgressEvents(total, total / 100))
    {
      ghost var base := pos[..];
      var nx, ny, nz := image.dims[xd], image.dims[yd], image.dims[zd];
      var total := nx * ny * nz;
      var step := total / 100;
      var data := new int[total];
      var count := 0;
      ghost var area := ny * nx;
      ProductOrder(nx, ny, nz);
      assert total == nz * area;
      for z := 0 to nz
        invariant count == z * area <= total
        invariant data[..count] == Scan(image.sample, base, zd, yd, xd, z, ny, nx)
        invariant forall k :: 0 <= k < pos.Length && k != xd && k != yd && k != zd ==> pos[k] == base[k]
        invariant step > 0 || count == 0
        invariant events.published == old(events.published) + ProgressEvents(count, step)
      {
        pos[zd] := z;
        PlaneFits(z, nz, area, total);
        ghost var start := pos[..];
        ghost var done := data[..count];
        var ok;
        count, ok := ScanPlane(pos, data, count, step, yd, xd, ny, nx, old(events.published));
        if !ok {
          PositiveProduct(nx, ny, nz);
          return Failure(Arithmetic);
        }
        PlaneAgree(image.sample, start, base[zd := z], yd, xd, ny, nx);
        assert data[..count] == done + Plane(image.sample, base[zd := z], yd, xd, ny, nx);
      }
      assert data[..] == data[..count];
      r := Success(data[..]);
    }

    /** The y loop of buildArray's slow path: one plane, row after row, positions set through pos. */
    method ScanPlane(pos: array<int>, data: array<int>, count: nat, step: int, yd: int, xd: int, ny: nat, nx: nat,
                     ghost before: seq<Event>) returns (next: nat, ok: bool)
      requires pos != data && 0 <= yd < pos.Length && 0 <= xd < pos.Length
      requires count + ny * nx <= data.Length <= 100 * step + 99
      requires step > 0 || count == 0
      requires events.published == before + ProgressEvents(count, step)
      modifies pos, data, events
      ensures ok <==> step > 0 || ny == 0 || nx == 0
      ensures ok ==> next == count + ny * nx
      ensures ok ==> data[..next] == old(data[..count]) + Plane(image.sample, old(pos[..]), yd, xd, ny, nx)
      ensures ok ==> events.published == before + ProgressEvents(next, step)
      ensures !ok ==> events.published == old(events.published)
      ensures forall k :: 0 <= k < pos.Length && k != xd && k != yd ==> pos[k] == old(pos[k])
    {
      ghost var p0 := pos[..];
      next := count;
      for y := 0 to ny
        invariant next == count + |Plane(image.sample, p0, yd, xd, y, nx)| <= data.Length
        invariant data[..next] == old(data[..count]) + Plane(image.sample, p0, yd, xd, y, nx)
        invariant forall k :: 0 <= k < pos.Length && k != xd && k != yd ==> pos[k] == p0[k]
        invariant step > 0 || next == 0
        invariant events.published == before + ProgressEvents(next, step)
      {
        pos[yd] := y;
        RowFits(count, y, ny, nx, data.Length);
        ghost var start := pos[..];
        ghost var done := data[..next];
        next, ok := ScanRow(pos, data, next, step, xd, nx, before);
        if !ok {
          return next, false;
        }
        RowAgree(image.sample, start, p0[yd := y], xd, nx);
        assert data[..next] == done + Row(image.sample, p0[yd := y], xd, nx);
      }
      ZeroProduct(ny, nx);
      ok := true;
    }

    /** The x loop of buildArray's slow path: one row, storing each sample and publishing progress. */
    method ScanRow(pos: array<int>, data: array<int>, count: nat, step: int, xd: int, nx: nat,
                   ghost before: seq<Event>) returns (next: nat, ok: bool)
      requires pos != data && 0 <= xd < pos.Length
      requires count + nx <= data.Length <= 100 * step + 99
      requires step > 0 || count == 0
      requires events.published == before + ProgressEvents(count, step)
      modifies pos, data, events
      ensures ok <==> step > 0 || nx == 0
      ensures ok ==> next == count + nx
      ensures ok ==> data[..next] == old(data[..count]) + Row(image.sample, old(pos[..]), xd, nx)
      ensures ok ==> events.published == before + ProgressEvents(next, step)
      ensures !ok ==> events.published == old(events.published)
      ensures forall k :: 0 <= k < pos.Length && k != xd ==> pos[k] == old(pos[k])
    {
      ghost var row := Row(image.sample, pos[..], xd, nx);
      next := count;
      for x := 0 to nx
        invariant next == count + x
        invariant data[..next] == old(data[..count]) + row[..x]
        invariant forall k :: 0 <= k < pos.Length && k != xd ==> pos[k] == old(pos[k])
        invariant step > 0 || next == 0
        invariant events.published == before + ProgressEvents(next, step)
      {
        pos[xd] := x;
        assert pos[..] == old(pos[..])[xd := x];
        assert row[..x + 1] == row[..x] + [row[x]];
        ok := StoreSample(data, next, image.sample(pos[..]), step, before);
        next := next + 1;
        if !ok {
          return next, false;
        }
      }
      assert row[..nx] == row;
      ok := true;
    }

    /** One step of the x loop: store the sample, count it, and publish progress when the count says so. */
    method StoreSample(data: array<int>, at: nat, value: int, step: int, ghost before: seq<Event>) returns (ok: bool)
      requires at < data.Length <= 100 * step + 99
      requires step > 0 || at == 0
      requires events.published == before + ProgressEvents(at, step)
      modifies data, events
      ensures data[..] == old(data[..])[at := value]
      ensures ok <==> step > 0
      ensures ok ==> events.published == before + ProgressEvents(at + 1, step)
      ensures !ok ==> events.published == old(events.published)
    {
      data[at] := value;
      var count := at + 1;
      if step == 0 {
        return false;
      }
      if count % step == 100 {
        ProgressBound(count, step);
        events.Publish(LoadImage(LoadImageEvent(count / step)));
      }
      ok := true;
    }

    /** setCaching. */
    method SetCaching(caching: bool)
      modifies this
      ensures this.caching == caching && createdImages == old(createdImages)
    {
      this.caching := caching;
    }

    /** emptyCache: Delete() every cached grid, then clear the cache. */
    method EmptyCache()
      modifies this, createdImages.Values
      ensures createdImages == map[] && caching == old(caching)
      ensures forall g :: g in old(createdImages).Values ==> g.deleted
    {
      var remaining := createdImages.Values;
      while remaining != {}
        invariant createdImages == old(createdImages) && caching == old(caching)
        invariant remaining <= createdImages.Values
        invariant forall g :: g in createdImages.Values - remaining ==> g.deleted
        decreases remaining
      {
        var g :| g in remaining;
        g.Delete();
        remaining := remaining - {g};
      }
      createdImages := map[];
    }
  }
}
