/** The heuristic SST → ice fields, and the coarse block polygons, of
    ml/train_and_export.py. Fields are flattened for the element-wise
    mapping and row-major (`[lat][lon]`) for the block export. */
module TrainExport {
  import opened Wrappers
  import opened Numeric
  import opened GeoJson
  import opened Seqs
  import Text

  // ---------------------------------------------------------------------
  // sst_to_ice_fields
  // ---------------------------------------------------------------------

  /** `clip(-sst / 2, 0, 1)`: 0 for water at or above 0 °C, 1 at or below
      -2 °C, linear between; NaN stays NaN. */
  function IceFrac(x: Float): (f: Float)
    ensures f.Fin? <==> x.Fin?
    ensures f.Fin? ==> 0.0 <= f.v <= 1.0
    ensures x.Fin? && x.v >= 0.0 ==> f == Fin(0.0)
    ensures x.Fin? && x.v <= -2.0 ==> f == Fin(1.0)
    ensures x.Fin? && -2.0 < x.v < 0.0 ==> f == Fin(-x.v / 2.0)
  {
    match x
    case NaN => NaN
    case Fin(s) =>
      var v := -s / 2.0;
      Fin(if v < 0.0 then 0.0 else if v > 1.0 then 1.0 else v)
  }

  /** `np.where(cond, a, b)` for one cell. */
  function Where(cond: bool, a: real, b: real): real {
    if cond then a else b
  }

  /** Greater-than on a cell: false for NaN, as numpy compares. */
  predicate Above(t: Float, bound: real) {
    t.Fin? && t.v > bound
  }

  /** The four `np.where` overrides of the type field, in order. */
  function TypeOfThickness(t: Float): (k: real)
    ensures k in {0.0, 10.0, 40.0, 70.0, 95.0}
    ensures k == 0.0 <==> !t.Fin? || t.v <= 0.05
    ensures k == 10.0 <==> t.Fin? && 0.05 < t.v <= 0.30
    ensures k == 40.0 <==> t.Fin? && 0.30 < t.v <= 1.00
    ensures k == 70.0 <==> t.Fin? && 1.00 < t.v <= 1.80
    ensures k == 95.0 <==> t.Fin? && t.v > 1.80
  {
    var k0 := 0.0;
    var k1 := Where(Above(t, 0.05), 10.0, k0);
    var k2 := Where(Above(t, 0.30), 40.0, k1);
    var k3 := Where(Above(t, 1.00), 70.0, k2);
    Where(Above(t, 1.80), 95.0, k3)
  }

  /** Thicker ice never gets a lower type. */
  lemma TypeMonotone(a: real, b: real)
    requires a <= b
    ensures TypeOfThickness(Fin(a)) <= TypeOfThickness(Fin(b))
  {
  }

  function Scale(c: real, x: Float): Float {
    match x
    case NaN => NaN
    case Fin(v) => Fin(c * v)
  }

  /** One cell: cover %, thickness (m) and type, all NaN outside the lake. */
  function IceCell(x: Float, inLake: bool): (r: (Float, Float, Float))
    ensures inLake && x.Fin? ==> r.0.Fin? && r.1.Fin? && r.2.Fin?
    ensures r.2.NaN? <==> !inLake
  {
    if !inLake then (NaN, NaN, NaN)
    else
      var frac := IceFrac(x);
      var thick := Scale(3.0, frac);
      (Scale(100.0, frac), thick, Fin(TypeOfThickness(thick)))
  }

  /** `sst_to_ice_fields`, with or without a lake mask. */
  function SstToIceFields(sst: seq<Float>, lakeMask: Option<seq<bool>>): (r: (seq<Float>, seq<Float>, seq<Float>))
    requires lakeMask.Some? ==> |lakeMask.value| == |sst|
    ensures |r.0| == |sst| && |r.1| == |sst| && |r.2| == |sst|
    ensures forall k :: 0 <= k < |sst| ==>
              (r.0[k], r.1[k], r.2[k]) == IceCell(sst[k], lakeMask.None? || lakeMask.value[k])
  {
    var cell := (k: int) requires 0 <= k < |sst| => IceCell(sst[k], lakeMask.None? || lakeMask.value[k]);
    (seq(|sst|, k requires 0 <= k < |sst| => cell(k).0),
     seq(|sst|, k requires 0 <= k < |sst| => cell(k).1),
     seq(|sst|, k requires 0 <= k < |sst| => cell(k).2))
  }

  /** In the lake, a finite SST gives cover in [0, 100], thickness in
      [0, 3] (always 3 % of the cover) and a legend type. */
  lemma IceCellBounds(s: real)
    ensures var (c, t, k) := IceCell(Fin(s), true);
            c.Fin? && t.Fin? && k.Fin? &&
            0.0 <= c.v <= 100.0 && 0.0 <= t.v <= 3.0 && t.v == 0.03 * c.v &&
            k.v in {0.0, 10.0, 40.0, 70.0, 95.0}
  {
  }

  /** Water at or above 0 °C carries no ice; at or below -2 °C it is full
      multi-year ice. */
  lemma IceCellExtremes(s: real)
    ensures s >= 0.0 ==> IceCell(Fin(s), true) == (Fin(0.0), Fin(0.0), Fin(0.0))
    ensures s <= -2.0 ==> IceCell(Fin(s), true) == (Fin(100.0), Fin(3.0), Fin(95.0))
  {
  }

  /** Colder water never has less ice. */
  lemma IceCellMonotone(a: real, b: real)
    requires a <= b
    ensures IceCell(Fin(a), true).0.v >= IceCell(Fin(b), true).0.v
    ensures IceCell(Fin(a), true).2.v >= IceCell(Fin(b), true).2.v
  {
    TypeMonotone(IceCell(Fin(b), true).1.v, IceCell(Fin(a), true).1.v);
  }

  /** Outside the lake every field is NaN; a NaN SST inside it gives NaN
      cover and thickness but type 0, since NaN passes no threshold. */
  lemma IceCellMasking(x: Float)
    ensures IceCell(x, false) == (NaN, NaN, NaN)
    ensures IceCell(NaN, true) == (NaN, NaN, Fin(0.0))
  {
  }

  // ---------------------------------------------------------------------
  // field_to_polygons
  // ---------------------------------------------------------------------

  predicate Rect<T>(f: seq<seq<T>>, ny: nat, nx: nat) {
    |f| == ny && forall i :: 0 <= i < ny ==> |f[i]| == nx
  }

  function Min(a: int, b: int): int { if a <= b then a else b }

  /** The cells of block `[j0, j1) × [i0, i1)`, row by row. */
  function BlockCells(field: seq<seq<Float>>, nx: nat, j0: nat, j1: nat, i0: nat, i1: nat): seq<Float>
    requires Rect(field, |field|, nx) && j0 <= j1 <= |field| && i0 <= i1 <= nx
  {
    Flatten(seq(j1 - j0, r requires 0 <= r < j1 - j0 => field[j0 + r][i0..i1]))
  }

  /** A block polygon before numbering. */
  datatype Block = Block(value: real, ring: seq<Position>)

  datatype BlockFeature = BlockFeature(id: nat, time: string, value: real, ring: seq<Position>)

  /** The axis-aligned rectangle `[lonMin, lonMax] × [latMin, latMax]`,
      closed. */
  function RectRing(lonMin: real, latMin: real, lonMax: real, latMax: real): (ring: seq<Position>)
    ensures |ring| == 5 && ring[0] == ring[4]
    ensures ring[0] == (lonMin, latMin) && ring[2] == (lonMax, latMax)
    ensures ring[1] == (ring[2].0, ring[0].1) && ring[3] == (ring[0].0, ring[2].1)
  {
    [(lonMin, latMin), (lonMax, latMin), (lonMax, latMax), (lonMin, latMax), (lonMin, latMin)]
  }

  /** Block (j0, i0): skipped when it has no finite cell or when its mean
      is below `minAbs` in magnitude; otherwise its mean and the rectangle
      through the outer cell centres widened by half a cell. */
  function BlockAt(field: seq<seq<Float>>, lat: seq<real>, lon: seq<real>, stride: nat, minAbs: real,
                   j0: nat, i0: nat): (out: seq<Block>)
    requires Rect(field, |lat|, |lon|) && |lat| >= 2 && |lon| >= 2 && stride > 0
    requires j0 < |lat| && i0 < |lon|
    ensures |out| <= 1
  {
    var j1 := Min(j0 + stride, |lat|);
    var i1 := Min(i0 + stride, |lon|);
    var vals := Finite(BlockCells(field, |lon|, j0, j1, i0, i1));
    if vals == [] then []
    else
      var v := Mean(vals);
      if (if v < 0.0 then -v else v) < minAbs then []
      else
        var dlat := lat[1] - lat[0];
        var dlon := lon[1] - lon[0];
        [Block(v, RectRing(lon[i0] - 0.5 * dlon, lat[j0] - 0.5 * dlat, lon[i1 - 1] + 0.5 * dlon, lat[j1 - 1] + 0.5 * dlat))]
  }

  /** Block (j0, i0) for each `i0` in `range(0, nx, stride)`. */
  function BandParts(field: seq<seq<Float>>, lat: seq<real>, lon: seq<real>, stride: nat, minAbs: real,
                     j0: nat): seq<seq<Block>>
    requires Rect(field, |lat|, |lon|) && |lat| >= 2 && |lon| >= 2 && stride > 0 && j0 < |lat|
  {
    var cols := Range(0, |lon|, stride);
    seq(|cols|, k requires 0 <= k < |cols| => BlockAt(field, lat, lon, stride, minAbs, j0, cols[k]))
  }

  /** The blocks kept from one band of rows. */
  function BandBlocks(field: seq<seq<Float>>, lat: seq<real>, lon: seq<real>, stride: nat, minAbs: real,
                      j0: nat): seq<Block>
    requires Rect(field, |lat|, |lon|) && |lat| >= 2 && |lon| >= 2 && stride > 0 && j0 < |lat|
  {
    Flatten(BandParts(field, lat, lon, stride, minAbs, j0))
  }

  /** The kept blocks of each band, for `j0` in `range(0, ny, stride)`. */
  function AllParts(field: seq<seq<Float>>, lat: seq<real>, lon: seq<real>, stride: nat, minAbs: real): seq<seq<Block>>
    requires Rect(field, |lat|, |lon|) && |lat| >= 2 && |lon| >= 2 && stride > 0
  {
    var rows := Range(0, |lat|, stride);
    seq(|rows|, k requires 0 <= k < |rows| => BandBlocks(field, lat, lon, stride, minAbs, rows[k]))
  }

  /** All kept blocks, band by band. */
  function AllBlocks(field: seq<seq<Float>>, lat: seq<real>, lon: seq<real>, stride: nat, minAbs: real): seq<Block>
    requires Rect(field, |lat|, |lon|) && |lat| >= 2 && |lon| >= 2 && stride > 0
  {
    Flatten(AllParts(field, lat, lon, stride, minAbs))
  }

  function NumberedBlocks(bs: seq<Block>, time: string): (fs: seq<BlockFeature>)
    ensures |fs| == |bs|
  {
    if bs == [] then []
    else
      var n := |bs| - 1;
      NumberedBlocks(bs[..n], time) + [BlockFeature(n, time, bs[n].value, bs[n].ring)]
  }

  /** Feature k is the k-th kept block, with id k and the given time. */
  lemma {:induction false} NumberedBlocksIds(bs: seq<Block>, time: string)
    ensures forall k :: 0 <= k < |bs| ==>
              NumberedBlocks(bs, time)[k] == BlockFeature(k, time, bs[k].value, bs[k].ring)
    decreases |bs|
  {
    if bs != [] {
      var n := |bs| - 1;
      NumberedBlocksIds(bs[..n], time);
      assert forall k :: 0 <= k < n ==> NumberedBlocks(bs, time)[k] == NumberedBlocks(bs[..n], time)[k];
    }
  }

  lemma NumberedBlocksSnoc(bs: seq<Block>, time: string, b: Block)
    ensures NumberedBlocks(bs + [b], time) == NumberedBlocks(bs, time) + [BlockFeature(|bs|, time, b.value, b.ring)]
  {
    assert (bs + [b])[..|bs|] == bs;
  }

  /** Every cell (y, x) lies in exactly one block: the k-th row band and
      the m-th column band. */
  lemma CellInOneBlock(ny: nat, nx: nat, stride: nat, y: nat, x: nat) returns (k: nat, m: nat)
    requires stride > 0 && y < ny && x < nx
    ensures var rows, cols := Range(0, ny, stride), Range(0, nx, stride);
            k < |rows| && m < |cols| &&
            rows[k] <= y < Min(rows[k] + stride, ny) && cols[m] <= x < Min(cols[m] + stride, nx)
    ensures var rows, cols := Range(0, ny, stride), Range(0, nx, stride);
            forall k', m' ::
              (0 <= k' < |rows| && 0 <= m' < |cols| &&
               rows[k'] <= y < Min(rows[k'] + stride, ny) && cols[m'] <= x < Min(cols[m'] + stride, nx))
              ==> k' == k && m' == m
  {
    k := AxisBlockOf(ny, stride, y);
    m := AxisBlockOf(nx, stride, x);
  }

  /** Along one axis, position `y` lies in exactly one block. */
  lemma AxisBlockOf(n: nat, stride: nat, y: nat) returns (k: nat)
    requires stride > 0 && y < n
    ensures var r := Range(0, n, stride); k < |r| && r[k] <= y < Min(r[k] + stride, n)
    ensures var r := Range(0, n, stride);
            forall k' :: 0 <= k' < |r| && r[k'] <= y < Min(r[k'] + stride, n) ==> k' == k
  {
    k := RangeBlockOf(0, n, stride, y);
    var r := Range(0, n, stride);
    forall k' | 0 <= k' < |r| && r[k'] <= y < Min(r[k'] + stride, n)
      ensures k' == k
    {
      RangeBlocksDisjoint(0, n, stride, y, k, k');
    }
  }

  /** A kept block's value is the mean of its finite cells, so it lies
      within their range, and is at least `minAbs` in magnitude. */
  lemma BlockValueBounds(field: seq<seq<Float>>, lat: seq<real>, lon: seq<real>, stride: nat, minAbs: real,
                         j0: nat, i0: nat, lo: real, hi: real)
    requires Rect(field, |lat|, |lon|) && |lat| >= 2 && |lon| >= 2 && stride > 0
    requires j0 < |lat| && i0 < |lon|
    requires forall r, c :: 0 <= r < |lat| && 0 <= c < |lon| && field[r][c].Fin? ==> lo <= field[r][c].v <= hi
    ensures forall b :: b in BlockAt(field, lat, lon, stride, minAbs, j0, i0) ==>
              lo <= b.value <= hi && (b.value >= minAbs || b.value <= -minAbs)
  {
    var j1 := Min(j0 + stride, |lat|);
    var i1 := Min(i0 + stride, |lon|);
    var cells := BlockCells(field, |lon|, j0, j1, i0, i1);
    BlockCellsBounded(field, |lon|, j0, j1, i0, i1, lo, hi);
    FiniteBounded(cells, lo, hi);
    if Finite(cells) != [] {
      MeanBounds(Finite(cells), lo, hi);
    }
  }

  /** Bounds on the finite cells of the field hold for those of a block. */
  lemma BlockCellsBounded(field: seq<seq<Float>>, nx: nat, j0: nat, j1: nat, i0: nat, i1: nat, lo: real, hi: real)
    requires Rect(field, |field|, nx) && j0 <= j1 <= |field| && i0 <= i1 <= nx
    requires forall r, c :: 0 <= r < |field| && 0 <= c < nx && field[r][c].Fin? ==> lo <= field[r][c].v <= hi
    ensures var cells := BlockCells(field, nx, j0, j1, i0, i1);
            forall k :: 0 <= k < |cells| && cells[k].Fin? ==> lo <= cells[k].v <= hi
  {
    var rows := seq(j1 - j0, r requires 0 <= r < j1 - j0 => field[j0 + r][i0..i1]);
    var cells := Flatten(rows);
    FlattenMembers(rows);
    forall k | 0 <= k < |cells| && cells[k].Fin?
      ensures lo <= cells[k].v <= hi
    {
      assert cells[k] in cells;
      var r :| 0 <= r < |rows| && cells[k] in rows[r];
      var c :| i0 <= c < i1 && field[j0 + r][c] == cells[k];
    }
  }

  /** With increasing coordinate axes, a kept block's rectangle runs from
      its south-west corner to its north-east corner and encloses the
      centres of all its cells. */
  lemma BlockRingEncloses(field: seq<seq<Float>>, lat: seq<real>, lon: seq<real>, stride: nat, minAbs: real,
                          j0: nat, i0: nat)
    requires Rect(field, |lat|, |lon|) && |lat| >= 2 && |lon| >= 2 && stride > 0
    requires j0 < |lat| && i0 < |lon|
    requires forall a, b :: 0 <= a < b < |lat| ==> lat[a] < lat[b]
    requires forall a, b :: 0 <= a < b < |lon| ==> lon[a] < lon[b]
    ensures forall b :: b in BlockAt(field, lat, lon, stride, minAbs, j0, i0) ==>
              var sw, ne := b.ring[0], b.ring[2];
              forall r, c :: j0 <= r < Min(j0 + stride, |lat|) && i0 <= c < Min(i0 + stride, |lon|) ==>
                sw.0 < lon[c] < ne.0 && sw.1 < lat[r] < ne.1
  {
  }

  lemma FlattenMembers<T>(ss: seq<seq<T>>)
    ensures forall x :: x in Flatten(ss) ==> exists r :: 0 <= r < |ss| && x in ss[r]
    decreases |ss|
  {
    if ss != [] {
      FlattenMembers(ss[..|ss| - 1]);
      forall x | x in Flatten(ss)
        ensures exists r :: 0 <= r < |ss| && x in ss[r]
      {
        if x in Flatten(ss[..|ss| - 1]) {
          var r :| 0 <= r < |ss| - 1 && x in ss[..|ss| - 1][r];
          assert x in ss[r];
        } else {
          assert x in ss[|ss| - 1];
        }
      }
    }
  }

  const ZeroStride: string := "range() arg 3 must not be zero"

  function IndexOneMissing(size: nat): string {
    "index 1 is out of bounds for axis 0 with size " + Text.NatToString(size)
  }

  /** One block: skip it, or append its feature with the next id. */
  method EmitBlock(field: seq<seq<Float>>, lat: seq<real>, lon: seq<real>, timeStr: string, stride: nat,
                   minAbs: real, j0: nat, i0: nat,
                   feats: seq<BlockFeature>, fid: nat, ghost kept: seq<Block>)
    returns (feats': seq<BlockFeature>, fid': nat, ghost kept': seq<Block>)
    requires Rect(field, |lat|, |lon|) && |lat| >= 2 && |lon| >= 2 && stride > 0
    requires j0 < |lat| && i0 < |lon|
    requires feats == NumberedBlocks(kept, timeStr) && fid == |kept|
    ensures kept' == kept + BlockAt(field, lat, lon, stride, minAbs, j0, i0)
    ensures feats' == NumberedBlocks(kept', timeStr) && fid' == |kept'|
  {
    feats', fid', kept' := feats, fid, kept;
    var j1 := Min(j0 + stride, |lat|);
    var i1 := Min(i0 + stride, |lon|);
    var block := BlockCells(field, |lon|, j0, j1, i0, i1);
    var vals := Finite(block);
    if vals == [] {
      return;
    }
    var v := Mean(vals);
    if (if v < 0.0 then -v else v) < minAbs {
      return;
    }
    var dlat := lat[1] - lat[0];
    var dlon := lon[1] - lon[0];
    var b := Block(v, RectRing(lon[i0] - 0.5 * dlon, lat[j0] - 0.5 * dlat, lon[i1 - 1] + 0.5 * dlon, lat[j1 - 1] + 0.5 * dlat));
    NumberedBlocksSnoc(kept', timeStr, b);
    feats' := feats' + [BlockFeature(fid', timeStr, b.value, b.ring)];
    fid' := fid' + 1;
    kept' := kept' + [b];
  }

  /** The inner `i0` loop of one row band. */
  method EmitBand(field: seq<seq<Float>>, lat: seq<real>, lon: seq<real>, timeStr: string, stride: nat,
                  minAbs: real, j0: nat,
                  feats: seq<BlockFeature>, fid: nat, ghost kept: seq<Block>)
    returns (feats': seq<BlockFeature>, fid': nat, ghost kept': seq<Block>)
    requires Rect(field, |lat|, |lon|) && |lat| >= 2 && |lon| >= 2 && stride > 0 && j0 < |lat|
    requires feats == NumberedBlocks(kept, timeStr) && fid == |kept|
    ensures kept' == kept + BandBlocks(field, lat, lon, stride, minAbs, j0)
    ensures feats' == NumberedBlocks(kept', timeStr) && fid' == |kept'|
  {
    ghost var parts := BandParts(field, lat, lon, stride, minAbs, j0);
    feats', fid', kept' := feats, fid, kept;
    var cols := Range(0, |lon|, stride);
    assert |parts| == |cols|;
    for ci := 0 to |cols|
      invariant kept' == kept + Flatten(parts[..ci])
      invariant feats' == NumberedBlocks(kept', timeStr) && fid' == |kept'|
    {
      var i0 := cols[ci];
      assert parts[ci] == BlockAt(field, lat, lon, stride, minAbs, j0, i0);
      FlattenExtend(kept, parts, ci, kept');
      feats', fid', kept' := EmitBlock(field, lat, lon, timeStr, stride, minAbs, j0, i0, feats', fid', kept');
    }
    assert parts[..|cols|] == parts;
  }

  /** `field_to_polygons`: the spacings read `lat_1d[1]` and `lon_1d[1]`;
      a negative stride makes both ranges empty. */
  method FieldToPolygons(field: seq<seq<Float>>, lat: seq<real>, lon: seq<real>, timeStr: string,
                         stride: int, minAbs: real)
    returns (r: Result<seq<BlockFeature>, string>)
    requires Rect(field, |lat|, |lon|)
    ensures |lat| < 2 ==> r == Err(IndexOneMissing(|lat|))
    ensures |lat| >= 2 && |lon| < 2 ==> r == Err(IndexOneMissing(|lon|))
    ensures |lat| >= 2 && |lon| >= 2 && stride == 0 ==> r == Err(ZeroStride)
    ensures |lat| >= 2 && |lon| >= 2 && stride < 0 ==> r == Ok([])
    ensures |lat| >= 2 && |lon| >= 2 && stride > 0 ==>
              r == Ok(NumberedBlocks(AllBlocks(field, lat, lon, stride, minAbs), timeStr))
  {
    if |lat| < 2 {
      return Err(IndexOneMissing(|lat|));
    }
    if |lon| < 2 {
      return Err(IndexOneMissing(|lon|));
    }
    if stride == 0 {
      return Err(ZeroStride);
    }
    if stride < 0 {
      return Ok([]);
    }
    ghost var bands := AllParts(field, lat, lon, stride, minAbs);
    var rows := Range(0, |lat|, stride);
    assert |bands| == |rows|;
    var feats: seq<BlockFeature> := [];
    var fid := 0;
    ghost var kept: seq<Block> := [];
    for ri := 0 to |rows|
      invariant kept == Flatten(bands[..ri])
      invariant feats == NumberedBlocks(kept, timeStr) && fid == |kept|
    {
      var j0 := rows[ri];
      assert bands[ri] == BandBlocks(field, lat, lon, stride, minAbs, j0);
      feats, fid, kept := EmitBand(field, lat, lon, timeStr, stride, minAbs, j0, feats, fid, kept);
      FlattenSnoc(bands, ri);
    }
    assert bands[..|rows|] == bands;
    return Ok(feats);
  }
}
