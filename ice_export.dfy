/** The multi-day exporter `da_to_geojson` of ml/model.py: every kept cell
    of every forecast frame becomes a quadrilateral Polygon feature tagged
    with its time, value, product and step. The 2-D latitude/longitude
    arrays are inputs (their inference from coordinates is not part of
    this model). */
module IceExport {
  import opened Wrappers
  import opened Numeric
  import opened GeoJson
  import opened Seqs
  import Text

  /** A (time, y, x) DataArray: whether it has a `time` dimension, its
      spatial shape, and its frames. */
  datatype Cube = Cube(hasTime: bool, ny: nat, nx: nat, frames: seq<seq<seq<Float>>>)

  predicate Rect<T>(f: seq<seq<T>>, ny: nat, nx: nat) {
    |f| == ny && forall i :: 0 <= i < ny ==> |f[i]| == nx
  }

  predicate WellShaped(c: Cube) {
    forall t :: 0 <= t < |c.frames| ==> Rect(c.frames[t], c.ny, c.nx)
  }

  datatype CellProps = CellProps(time: string, value: real, product: string, step: nat)

  /** A cell polygon before numbering. */
  datatype Cell = Cell(props: CellProps, ring: seq<Position>)

  datatype CellFeature = CellFeature(id: nat, props: CellProps, ring: seq<Position>)

  const IceType: string := "ice_type"

  /** The legend bins of the ice-type product. */
  function SnapType(v: real): (r: real)
    ensures r in {0.0, 10.0, 40.0, 70.0, 95.0}
    ensures r == 0.0 <==> v < 5.0
    ensures r == 10.0 <==> 5.0 <= v < 25.0
    ensures r == 40.0 <==> 25.0 <= v < 55.0
    ensures r == 70.0 <==> 55.0 <= v < 85.0
    ensures r == 95.0 <==> v >= 85.0
  {
    if v < 5.0 then 0.0
    else if v < 25.0 then 10.0
    else if v < 55.0 then 40.0
    else if v < 85.0 then 70.0
    else 95.0
  }

  /** A legend value snaps to itself. */
  lemma SnapTypeFixesLegend(v: real)
    requires v in {0.0, 10.0, 40.0, 70.0, 95.0}
    ensures SnapType(v) == v
  {
  }

  /** The value a cell is exported with, or nothing when it is skipped:
      non-finite cells and land sentinels go, zeros stay. */
  function CellValue(x: Float, landThreshold: real, product: string): (r: Option<real>)
    ensures r.Some? <==> x.Fin? && x.v > landThreshold
    ensures r.Some? && product != IceType ==> r.value == x.v
    ensures r.Some? && product == IceType ==> r.value == SnapType(x.v)
  {
    if !x.Fin? || x.v <= landThreshold then None
    else if product == IceType then Some(SnapType(x.v))
    else Some(x.v)
  }

  /** Open water (0) is exported whenever the land threshold is negative. */
  lemma ZeroCellKept(landThreshold: real, product: string)
    requires landThreshold < 0.0
    ensures CellValue(Fin(0.0), landThreshold, product) == Some(0.0)
  {
  }

  /** The polygon of cell (i, j) from its own and its neighbours' grid
      points, closed back on the first corner. */
  function CellRing(lat2d: seq<seq<real>>, lon2d: seq<seq<real>>, i: nat, j: nat): (ring: seq<Position>)
    requires i + 1 < |lat2d| && |lat2d| == |lon2d|
    requires j + 1 < |lat2d[i]| && j + 1 < |lat2d[i + 1]|
    requires |lon2d[i]| == |lat2d[i]| && |lon2d[i + 1]| == |lat2d[i + 1]|
    ensures |ring| == 5 && ring[0] == ring[4]
    ensures ring[0] == (lon2d[i][j], lat2d[i][j]) && ring[2] == (lon2d[i + 1][j + 1], lat2d[i + 1][j + 1])
  {
    [(lon2d[i][j], lat2d[i][j]),
     (lon2d[i][j + 1], lat2d[i][j + 1]),
     (lon2d[i + 1][j + 1], lat2d[i + 1][j + 1]),
     (lon2d[i + 1][j], lat2d[i + 1][j]),
     (lon2d[i][j], lat2d[i][j])]
  }

  /** What the exporter promises of every cell it emits. */
  predicate GoodCell(c: Cell, times: seq<string>, product: string, landThreshold: real) {
    c.props.step < |times| && c.props.time == times[c.props.step] && c.props.product == product &&
    |c.ring| == 5 && c.ring[0] == c.ring[4] &&
    (product == IceType ==> c.props.value in {0.0, 10.0, 40.0, 70.0, 95.0}) &&
    (product != IceType ==> c.props.value > landThreshold)
  }

  /** The cell (i, j) of frame t, as a one- or zero-element list. */
  function CellAt(c: Cube, lat2d: seq<seq<real>>, lon2d: seq<seq<real>>, times: seq<string>,
                  product: string, landThreshold: real, t: nat, i: nat, j: nat): (out: seq<Cell>)
    requires WellShaped(c) && Rect(lat2d, c.ny, c.nx) && Rect(lon2d, c.ny, c.nx)
    requires t < |c.frames| && t < |times| && i + 1 < c.ny && j + 1 < c.nx
  {
    match CellValue(c.frames[t][i][j], landThreshold, product)
    case None => []
    case Some(v) => [Cell(CellProps(times[t], v, product, t), CellRing(lat2d, lon2d, i, j))]
  }

  lemma CellAtGood(c: Cube, lat2d: seq<seq<real>>, lon2d: seq<seq<real>>, times: seq<string>,
                   product: string, landThreshold: real, t: nat, i: nat, j: nat)
    requires WellShaped(c) && Rect(lat2d, c.ny, c.nx) && Rect(lon2d, c.ny, c.nx)
    requires t < |c.frames| && t < |times| && i + 1 < c.ny && j + 1 < c.nx
    ensures AllGood(CellAt(c, lat2d, lon2d, times, product, landThreshold, t, i, j), times, product, landThreshold)
  {
  }

  predicate AllGood(cs: seq<Cell>, times: seq<string>, product: string, landThreshold: real) {
    forall k :: 0 <= k < |cs| ==> GoodCell(cs[k], times, product, landThreshold)
  }

  lemma FlattenGood(css: seq<seq<Cell>>, times: seq<string>, product: string, landThreshold: real)
    requires forall k :: 0 <= k < |css| ==> AllGood(css[k], times, product, landThreshold)
    ensures AllGood(Flatten(css), times, product, landThreshold)
    decreases |css|
  {
    if css != [] {
      FlattenGood(css[..|css| - 1], times, product, landThreshold);
    }
  }

  /** One row of one frame: the columns `range(0, nx - 1, stride)`. */
  function RowCells(c: Cube, lat2d: seq<seq<real>>, lon2d: seq<seq<real>>, times: seq<string>,
                    product: string, landThreshold: real, stride: nat, t: nat, i: nat): seq<seq<Cell>>
    requires WellShaped(c) && Rect(lat2d, c.ny, c.nx) && Rect(lon2d, c.ny, c.nx)
    requires stride > 0 && t < |c.frames| && t < |times| && i + 1 < c.ny
  {
    var cols := Range(0, c.nx - 1, stride);
    seq(|cols|, k requires 0 <= k < |cols| => CellAt(c, lat2d, lon2d, times, product, landThreshold, t, i, cols[k]))
  }

  /** One frame: the rows `range(0, ny - 1, stride)`. */
  function FrameCells(c: Cube, lat2d: seq<seq<real>>, lon2d: seq<seq<real>>, times: seq<string>,
                      product: string, landThreshold: real, stride: nat, t: nat): seq<seq<Cell>>
    requires WellShaped(c) && Rect(lat2d, c.ny, c.nx) && Rect(lon2d, c.ny, c.nx)
    requires stride > 0 && t < |c.frames| && t < |times|
  {
    var rows := Range(0, c.ny - 1, stride);
    seq(|rows|, k requires 0 <= k < |rows| =>
      RowOut(c, lat2d, lon2d, times, product, landThreshold, stride, t, rows[k]))
  }

  /** The cells emitted for row i of frame t. */
  function RowOut(c: Cube, lat2d: seq<seq<real>>, lon2d: seq<seq<real>>, times: seq<string>,
                  product: string, landThreshold: real, stride: nat, t: nat, i: nat): seq<Cell>
    requires WellShaped(c) && Rect(lat2d, c.ny, c.nx) && Rect(lon2d, c.ny, c.nx)
    requires stride > 0 && t < |c.frames| && t < |times| && i + 1 < c.ny
  {
    Flatten(RowCells(c, lat2d, lon2d, times, product, landThreshold, stride, t, i))
  }

  /** The cells emitted for frame t. */
  function FrameOut(c: Cube, lat2d: seq<seq<real>>, lon2d: seq<seq<real>>, times: seq<string>,
                    product: string, landThreshold: real, stride: nat, t: nat): seq<Cell>
    requires WellShaped(c) && Rect(lat2d, c.ny, c.nx) && Rect(lon2d, c.ny, c.nx)
    requires stride > 0 && t < |c.frames| && t < |times|
  {
    Flatten(FrameCells(c, lat2d, lon2d, times, product, landThreshold, stride, t))
  }

  /** Every frame in time order. */
  function AllCells(c: Cube, lat2d: seq<seq<real>>, lon2d: seq<seq<real>>, times: seq<string>,
                    product: string, landThreshold: real, stride: nat): (cs: seq<Cell>)
    requires WellShaped(c) && Rect(lat2d, c.ny, c.nx) && Rect(lon2d, c.ny, c.nx)
    requires stride > 0 && |c.frames| == |times|
  {
    Flatten(seq(|times|, t requires 0 <= t < |times| =>
      FrameOut(c, lat2d, lon2d, times, product, landThreshold, stride, t)))
  }

  lemma RowOutGood(c: Cube, lat2d: seq<seq<real>>, lon2d: seq<seq<real>>, times: seq<string>,
                   product: string, landThreshold: real, stride: nat, t: nat, i: nat)
    requires WellShaped(c) && Rect(lat2d, c.ny, c.nx) && Rect(lon2d, c.ny, c.nx)
    requires stride > 0 && t < |c.frames| && t < |times| && i + 1 < c.ny
    ensures AllGood(RowOut(c, lat2d, lon2d, times, product, landThreshold, stride, t, i), times, product, landThreshold)
  {
    var cells := RowCells(c, lat2d, lon2d, times, product, landThreshold, stride, t, i);
    var cols := Range(0, c.nx - 1, stride);
    forall k | 0 <= k < |cells|
      ensures AllGood(cells[k], times, product, landThreshold)
    {
      CellAtGood(c, lat2d, lon2d, times, product, landThreshold, t, i, cols[k]);
    }
    FlattenGood(cells, times, product, landThreshold);
  }

  lemma FrameOutGood(c: Cube, lat2d: seq<seq<real>>, lon2d: seq<seq<real>>, times: seq<string>,
                     product: string, landThreshold: real, stride: nat, t: nat)
    requires WellShaped(c) && Rect(lat2d, c.ny, c.nx) && Rect(lon2d, c.ny, c.nx)
    requires stride > 0 && t < |c.frames| && t < |times|
    ensures AllGood(FrameOut(c, lat2d, lon2d, times, product, landThreshold, stride, t), times, product, landThreshold)
  {
    var fc := FrameCells(c, lat2d, lon2d, times, product, landThreshold, stride, t);
    var rows := Range(0, c.ny - 1, stride);
    forall k | 0 <= k < |fc|
      ensures AllGood(fc[k], times, product, landThreshold)
    {
      RowOutGood(c, lat2d, lon2d, times, product, landThreshold, stride, t, rows[k]);
    }
    FlattenGood(fc, times, product, landThreshold);
  }

  /** Every emitted cell names a real time step and its time, carries the
      product, a closed five-vertex ring and a legend value for ice type
      (any other product: a value above the land threshold). */
  lemma AllCellsGood(c: Cube, lat2d: seq<seq<real>>, lon2d: seq<seq<real>>, times: seq<string>,
                     product: string, landThreshold: real, stride: nat)
    requires WellShaped(c) && Rect(lat2d, c.ny, c.nx) && Rect(lon2d, c.ny, c.nx)
    requires stride > 0 && |c.frames| == |times|
    ensures AllGood(AllCells(c, lat2d, lon2d, times, product, landThreshold, stride), times, product, landThreshold)
  {
    var frames := seq(|times|, t requires 0 <= t < |times| =>
      FrameOut(c, lat2d, lon2d, times, product, landThreshold, stride, t));
    forall t | 0 <= t < |times|
      ensures AllGood(frames[t], times, product, landThreshold)
    {
      FrameOutGood(c, lat2d, lon2d, times, product, landThreshold, stride, t);
    }
    FlattenGood(frames, times, product, landThreshold);
  }

  /** Ids in emission order, from 0. */
  function Numbered(cs: seq<Cell>): (fs: seq<CellFeature>)
    ensures |fs| == |cs|
  {
    if cs == [] then []
    else
      var n := |cs| - 1;
      Numbered(cs[..n]) + [CellFeature(n, cs[n].props, cs[n].ring)]
  }

  /** Feature k is the k-th emitted cell with id k. */
  lemma {:induction false} NumberedIds(cs: seq<Cell>)
    ensures forall k :: 0 <= k < |cs| ==> Numbered(cs)[k] == CellFeature(k, cs[k].props, cs[k].ring)
    decreases |cs|
  {
    if cs != [] {
      var n := |cs| - 1;
      NumberedIds(cs[..n]);
      assert forall k :: 0 <= k < n ==> Numbered(cs)[k] == Numbered(cs[..n])[k];
    }
  }

  lemma NumberedSnoc(cs: seq<Cell>, x: Cell)
    ensures Numbered(cs + [x]) == Numbered(cs) + [CellFeature(|cs|, x.props, x.ring)]
  {
    assert (cs + [x])[..|cs|] == cs;
  }

  const NoTimeDim: string := "da_to_geojson expects a DataArray with a 'time' dimension"
  const NoFrames: string := "index 0 is out of bounds for axis 0 with size 0"
  const ZeroStride: string := "range() arg 3 must not be zero"
  /** numpy's error for `frame[0, 0]` on a 0 x 0 frame. */
  const EmptyGrid: string := "index 0 is out of bounds for axis 0 with size 0"

  function TimesMismatch(given: nat, nt: nat): string {
    "times length " + Text.NatToString(given) + " != da.time length " + Text.NatToString(nt)
  }

  /** One cell (i, j) of frame t: skip it, or append its polygon with
      the next id. */
  method EmitCell(c: Cube, lat2d: seq<seq<real>>, lon2d: seq<seq<real>>, times: seq<string>,
                  product: string, landThreshold: real, t: nat, i: nat, j: nat,
                  features: seq<CellFeature>, fid: nat, ghost emitted: seq<Cell>)
    returns (features': seq<CellFeature>, fid': nat, ghost emitted': seq<Cell>)
    requires WellShaped(c) && Rect(lat2d, c.ny, c.nx) && Rect(lon2d, c.ny, c.nx)
    requires t < |c.frames| && t < |times| && i + 1 < c.ny && j + 1 < c.nx
    requires features == Numbered(emitted) && fid == |emitted|
    ensures emitted' == emitted + CellAt(c, lat2d, lon2d, times, product, landThreshold, t, i, j)
    ensures features' == Numbered(emitted') && fid' == |emitted'|
  {
    features', fid', emitted' := features, fid, emitted;
    var v := CellValue(c.frames[t][i][j], landThreshold, product);
    if v.Some? {
      var cell := Cell(CellProps(times[t], v.value, product, t), CellRing(lat2d, lon2d, i, j));
      NumberedSnoc(emitted', cell);
      features' := features' + [CellFeature(fid', cell.props, cell.ring)];
      fid' := fid' + 1;
      emitted' := emitted' + [cell];
    }
  }

  /** The inner column loop for row i of frame t. */
  method EmitRow(c: Cube, lat2d: seq<seq<real>>, lon2d: seq<seq<real>>, times: seq<string>,
                 product: string, landThreshold: real, stride: nat, t: nat, i: nat,
                 features: seq<CellFeature>, fid: nat, ghost emitted: seq<Cell>)
    returns (features': seq<CellFeature>, fid': nat, ghost emitted': seq<Cell>)
    requires WellShaped(c) && Rect(lat2d, c.ny, c.nx) && Rect(lon2d, c.ny, c.nx)
    requires stride > 0 && t < |c.frames| && t < |times| && i + 1 < c.ny
    requires features == Numbered(emitted) && fid == |emitted|
    ensures emitted' == emitted + RowOut(c, lat2d, lon2d, times, product, landThreshold, stride, t, i)
    ensures features' == Numbered(emitted') && fid' == |emitted'|
  {
    ghost var cells := RowCells(c, lat2d, lon2d, times, product, landThreshold, stride, t, i);
    features', fid', emitted' := features, fid, emitted;
    var cols := Range(0, c.nx - 1, stride);
    assert |cells| == |cols|;
    for ci := 0 to |cols|
      invariant emitted' == emitted + Flatten(cells[..ci])
      invariant features' == Numbered(emitted') && fid' == |emitted'|
    {
      var j := cols[ci];
      assert cells[ci] == CellAt(c, lat2d, lon2d, times, product, landThreshold, t, i, j);
      FlattenExtend(emitted, cells, ci, emitted');
      features', fid', emitted' := EmitCell(c, lat2d, lon2d, times, product, landThreshold, t, i, j,
                                            features', fid', emitted');
    }
    assert cells[..|cols|] == cells;
  }

  /** The row loop of frame t. */
  method EmitFrame(c: Cube, lat2d: seq<seq<real>>, lon2d: seq<seq<real>>, times: seq<string>,
                   product: string, landThreshold: real, stride: nat, t: nat,
                   features: seq<CellFeature>, fid: nat, ghost emitted: seq<Cell>)
    returns (features': seq<CellFeature>, fid': nat, ghost emitted': seq<Cell>)
    requires WellShaped(c) && Rect(lat2d, c.ny, c.nx) && Rect(lon2d, c.ny, c.nx)
    requires stride > 0 && t < |c.frames| && t < |times|
    requires features == Numbered(emitted) && fid == |emitted|
    ensures emitted' == emitted + FrameOut(c, lat2d, lon2d, times, product, landThreshold, stride, t)
    ensures features' == Numbered(emitted') && fid' == |emitted'|
  {
    ghost var rowsCells := FrameCells(c, lat2d, lon2d, times, product, landThreshold, stride, t);
    features', fid', emitted' := features, fid, emitted;
    var rows := Range(0, c.ny - 1, stride);
    assert |rowsCells| == |rows|;
    for ri := 0 to |rows|
      invariant emitted' == emitted + Flatten(rowsCells[..ri])
      invariant features' == Numbered(emitted') && fid' == |emitted'|
    {
      var i := rows[ri];
      assert rowsCells[ri] == RowOut(c, lat2d, lon2d, times, product, landThreshold, stride, t, i);
      FlattenExtend(emitted, rowsCells, ri, emitted');
      features', fid', emitted' := EmitRow(c, lat2d, lon2d, times, product, landThreshold, stride, t, i,
                                           features', fid', emitted');
    }
    assert rowsCells[..|rows|] == rowsCells;
  }

  /** `da_to_geojson`. A negative stride makes `range(0, n - 1, stride)`
      empty unless `n == 0`, where it is `[0]`: on a 0 x 0 grid the loop
      then reads `frame[0, 0]` and numpy raises; otherwise nothing is read. */
  method DaToGeojson(c: Cube, lat2d: seq<seq<real>>, lon2d: seq<seq<real>>, product: string,
                     times: seq<string>, stride: int, landThreshold: real)
    returns (r: Result<seq<CellFeature>, string>)
    requires WellShaped(c) && Rect(lat2d, c.ny, c.nx) && Rect(lon2d, c.ny, c.nx)
    ensures !c.hasTime ==> r == Err(NoTimeDim)
    ensures c.hasTime && |times| != |c.frames| ==> r == Err(TimesMismatch(|times|, |c.frames|))
    ensures c.hasTime && |times| == |c.frames| == 0 ==> r == Err(NoFrames)
    ensures c.hasTime && |times| == |c.frames| > 0 && stride == 0 ==> r == Err(ZeroStride)
    ensures c.hasTime && |times| == |c.frames| > 0 && stride < 0 && c.ny == 0 && c.nx == 0 ==>
              r == Err(EmptyGrid)
    ensures c.hasTime && |times| == |c.frames| > 0 && stride < 0 && (c.ny > 0 || c.nx > 0) ==>
              r == Ok([])
    ensures c.hasTime && |times| == |c.frames| > 0 && stride > 0 ==>
              r == Ok(Numbered(AllCells(c, lat2d, lon2d, times, product, landThreshold, stride)))
  {
    if !c.hasTime {
      return Err(NoTimeDim);
    }
    var nt := |c.frames|;
    if |times| != nt {
      return Err(TimesMismatch(|times|, nt));
    }
    if nt == 0 {
      return Err(NoFrames);
    }
    if stride == 0 {
      return Err(ZeroStride);
    }
    if stride < 0 {
      Seqs.NegativeStrideRange(c.ny, stride);
      Seqs.NegativeStrideRange(c.nx, stride);
      if c.ny == 0 && c.nx == 0 {
        return Err(EmptyGrid);
      }
      return Ok([]);
    }
    var features: seq<CellFeature> := [];
    var fid := 0;
    ghost var emitted: seq<Cell> := [];
    ghost var frames := seq(|times|, t requires 0 <= t < |times| =>
      FrameOut(c, lat2d, lon2d, times, product, landThreshold, stride, t));
    for t := 0 to nt
      invariant emitted == Flatten(frames[..t])
      invariant features == Numbered(emitted) && fid == |emitted|
    {
      features, fid, emitted := EmitFrame(c, lat2d, lon2d, times, product, landThreshold, stride, t,
                                          features, fid, emitted);
      FlattenSnoc(frames, t);
    }
    assert frames[..nt] == frames;
    return Ok(features);
  }
}
