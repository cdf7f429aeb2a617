/** Rasterisation of the land and ice layers into the routing cost grid
    (src/data/api.js, `createCostGrid`). Land is impassable (`Infinity` in
    the source); a cell under ice costs `1 + 3 * value` for the first ice
    feature that covers it; every other cell costs 1. */
module CostGrid {
  import opened Wrappers
  import opened GeoJson
  import opened PointInPolygon
  import opened GridMap

  /** `Infinity` of the source is `Land`; every finite cost is `Water`. */
  datatype Cost = Land | Water(cost: real)

  const OpenWaterCost: real := 1.0
  const IceCostMultiplier: real := 3.0

  datatype LandProps = LandProps(name: string)
  /** `properties.value` of an ice feature; None when it is absent or null. */
  datatype IceProps = IceProps(value: Option<real>)

  type LandFeature = Feature<LandProps>
  /** The `properties` member of an ice feature may itself be null. */
  type IceFeature = Feature<Option<IceProps>>

  /** The TypeError messages the engine raises for a land feature whose
      geometry is null, and for a polygon without rings (its first ring is
      `undefined`, whose `length` the ray-casting loop reads). */
  const NullGeometryError: string := "Cannot read properties of null (reading 'type')"
  const MissingRingError: string := "Cannot read properties of undefined (reading 'length')"

  /** `feature.properties?.value || 0`. */
  function IceValue(f: IceFeature): (v: real)
    ensures f.properties.None? ==> v == 0.0
    ensures f.properties.Some? && f.properties.value.value.Some? ==> v == f.properties.value.value.value
    ensures f.properties.Some? && f.properties.value.value.None? ==> v == 0.0
  {
    match f.properties
    case None => 0.0
    case Some(props) => props.value.GetOr(0.0)
  }

  /** The test of one polygon: only its first ring counts (holes are ignored). */
  function RingsHit(p: Position, rings: seq<Ring>): Result<bool, string> {
    if |rings| == 0 then Err(MissingRingError) else Ok(Inside(p, rings[0]))
  }

  /** The parts of a MultiPolygon in order, stopping at the first hit. */
  function PartsHit(p: Position, parts: seq<seq<Ring>>): Result<bool, string> {
    if |parts| == 0 then Ok(false)
    else match RingsHit(p, parts[0])
      case Err(e) => Err(e)
      case Ok(hit) => if hit then Ok(true) else PartsHit(p, parts[1..])
  }

  /** Only Polygon and MultiPolygon geometries are tested; others never hit. */
  function GeometryHit(p: Position, g: Geometry): Result<bool, string> {
    match g
    case Polygon(rings) => RingsHit(p, rings)
    case MultiPolygon(parts) => PartsHit(p, parts)
    case _ => Ok(false)
  }

  /** The land features in order, stopping at the first hit. */
  function LandScan(p: Position, land: seq<LandFeature>): Result<bool, string> {
    if |land| == 0 then Ok(false)
    else match land[0].geometry
      case None => Err(NullGeometryError)
      case Some(g) =>
        match GeometryHit(p, g)
        case Err(e) => Err(e)
        case Ok(hit) => if hit then Ok(true) else LandScan(p, land[1..])
  }

  /** The ice features in order (null geometries skipped), giving the ice
      value of the first one that covers `p`. */
  function IceScan(p: Position, ice: seq<IceFeature>): Result<Option<real>, string> {
    if |ice| == 0 then Ok(None)
    else match ice[0].geometry
      case None => IceScan(p, ice[1..])
      case Some(g) =>
        match GeometryHit(p, g)
        case Err(e) => Err(e)
        case Ok(hit) => if hit then Ok(Some(IceValue(ice[0]))) else IceScan(p, ice[1..])
  }

  /** The reference definition of one cell of the grid, from the lon/lat
      of the cell. */
  function CellCost(land: seq<LandFeature>, ice: seq<IceFeature>, c: Cell): (r: Result<Cost, string>)
    ensures r.Ok? ==> (r.value == Land <==> LandScan(GridToLonLat(c.x, c.y), land) == Ok(true))
    ensures LandScan(GridToLonLat(c.x, c.y), land).Err? ==> r.Err?
  {
    var p := GridToLonLat(c.x, c.y);
    match LandScan(p, land)
    case Err(e) => Err(e)
    case Ok(onLand) =>
      if onLand then Ok(Land)
      else match IceScan(p, ice)
        case Err(e) => Err(e)
        case Ok(None) => Ok(Water(OpenWaterCost))
        case Ok(Some(v)) => Ok(Water(OpenWaterCost + v * IceCostMultiplier))
  }

  /** What the first pass leaves in a cell. */
  function LandMark(land: seq<LandFeature>, c: Cell): Cost {
    if LandScan(GridToLonLat(c.x, c.y), land) == Ok(true) then Land else Water(OpenWaterCost)
  }

  method RingsHitAt(p: Position, rings: seq<Ring>) returns (r: Result<bool, string>)
    ensures r == RingsHit(p, rings)
  {
    if |rings| == 0 {
      return Err(MissingRingError);
    }
    var inside := IsPointInPolygon(p, rings[0]);
    return Ok(inside);
  }

  method GeometryHitAt(p: Position, g: Geometry) returns (r: Result<bool, string>)
    ensures r == GeometryHit(p, g)
  {
    match g
    case Polygon(rings) =>
      r := RingsHitAt(p, rings);
    case MultiPolygon(parts) =>
      var k := 0;
      while k < |parts|
        invariant 0 <= k <= |parts|
        invariant PartsHit(p, parts) == PartsHit(p, parts[k..])
      {
        assert parts[k..][1..] == parts[k + 1..];
        var h := RingsHitAt(p, parts[k]);
        if h.Err? || h.value {
          return h;
        }
        k := k + 1;
      }
      return Ok(false);
    case _ =>
      return Ok(false);
  }

  /** The land loop for one cell. */
  method LandHitAt(p: Position, land: seq<LandFeature>) returns (r: Result<bool, string>)
    ensures r == LandScan(p, land)
  {
    var k := 0;
    while k < |land|
      invariant 0 <= k <= |land|
      invariant LandScan(p, land) == LandScan(p, land[k..])
    {
      assert land[k..][1..] == land[k + 1..];
      match land[k].geometry {
        case None =>
          return Err(NullGeometryError);
        case Some(g) =>
          var h := GeometryHitAt(p, g);
          if h.Err? || h.value {
            return h;
          }
      }
      k := k + 1;
    }
    return Ok(false);
  }

  /** The ice loop for one cell. */
  method IceHitAt(p: Position, ice: seq<IceFeature>) returns (r: Result<Option<real>, string>)
    ensures r == IceScan(p, ice)
  {
    var k := 0;
    while k < |ice|
      invariant 0 <= k <= |ice|
      invariant IceScan(p, ice) == IceScan(p, ice[k..])
    {
      assert ice[k..][1..] == ice[k + 1..];
      if ice[k].geometry.Some? {
        var h := GeometryHitAt(p, ice[k].geometry.value);
        if h.Err? {
          return Err(h.error);
        }
        if h.value {
          return Ok(Some(IceValue(ice[k])));
        }
      }
      k := k + 1;
    }
    return Ok(None);
  }

  /** Cell (xx, yy) comes before cell (x, y) in row-major order. */
  predicate Before(yy: int, xx: int, y: int, x: int) {
    yy < y || (yy == y && xx < x)
  }

  ghost predicate Shaped(grid: array2<Cost>) {
    grid.Length0 == Height && grid.Length1 == Width
  }

  /** State of the grid during the land pass, up to cell (x, y). */
  ghost predicate LandPassUpTo(grid: array2<Cost>, land: seq<LandFeature>, y: int, x: int)
    reads grid
    requires Shaped(grid)
  {
    forall yy, xx :: 0 <= yy < Height && 0 <= xx < Width ==>
      if Before(yy, xx, y, x) then
        LandScan(GridToLonLat(xx, yy), land).Ok? && grid[yy, xx] == LandMark(land, Cell(xx, yy))
      else grid[yy, xx] == Water(OpenWaterCost)
  }

  /** State of the grid during the ice pass, up to cell (x, y). */
  ghost predicate IcePassUpTo(grid: array2<Cost>, land: seq<LandFeature>, ice: seq<IceFeature>, y: int, x: int)
    reads grid
    requires Shaped(grid)
  {
    forall yy, xx :: 0 <= yy < Height && 0 <= xx < Width ==>
      LandScan(GridToLonLat(xx, yy), land).Ok? &&
      if Before(yy, xx, y, x) then CellCost(land, ice, Cell(xx, yy)) == Ok(grid[yy, xx])
      else grid[yy, xx] == LandMark(land, Cell(xx, yy))
  }

  /** A built grid, or the error that aborted the build, as `createCostGrid`
      leaves it for `land` and `ice`. */
  ghost predicate Rasterised(grid: array2<Cost>, error: Option<string>, land: seq<LandFeature>, ice: seq<IceFeature>)
    reads grid
  {
    Shaped(grid) &&
    (error.None? ==>
       forall y, x :: 0 <= y < Height && 0 <= x < Width ==> CellCost(land, ice, Cell(x, y)) == Ok(grid[y, x])) &&
    (error.Some? ==>
       exists y, x :: 0 <= y < Height && 0 <= x < Width && CellCost(land, ice, Cell(x, y)) == Err(error.value))
  }

  /** Cell (x, y) is the first cell, in row-major order, whose land scan
      throws, and it throws `e`. */
  ghost predicate FirstLandError(land: seq<LandFeature>, y: int, x: int, e: string) {
    0 <= y < Height && 0 <= x < Width && LandScan(GridToLonLat(x, y), land) == Err(e) &&
    forall yy, xx :: 0 <= yy < Height && 0 <= xx < Width && Before(yy, xx, y, x) ==>
      LandScan(GridToLonLat(xx, yy), land).Ok?
  }

  /** Cell (x, y) is the first cell, in row-major order, whose cost cannot
      be computed, and the error is `e`. */
  ghost predicate FirstCellError(land: seq<LandFeature>, ice: seq<IceFeature>, y: int, x: int, e: string) {
    0 <= y < Height && 0 <= x < Width && CellCost(land, ice, Cell(x, y)) == Err(e) &&
    forall yy, xx :: 0 <= yy < Height && 0 <= xx < Width && Before(yy, xx, y, x) ==>
      CellCost(land, ice, Cell(xx, yy)).Ok?
  }

  /** Every cell's land scan succeeds. */
  ghost predicate LandScansOk(land: seq<LandFeature>) {
    forall y, x :: 0 <= y < Height && 0 <= x < Width ==> LandScan(GridToLonLat(x, y), land).Ok?
  }

  /** `createCostGrid`: every cell starts at the open-water cost; the first
      pass marks land, the second overlays ice on the cells that are not
      land. A TypeError in either pass aborts the build with its message. */
  method CreateCostGrid(land: seq<LandFeature>, ice: seq<IceFeature>) returns (grid: array2<Cost>, error: Option<string>)
    ensures fresh(grid) && Shaped(grid)
    ensures error.None? ==>
              forall y, x :: 0 <= y < Height && 0 <= x < Width ==> CellCost(land, ice, Cell(x, y)) == Ok(grid[y, x])
    ensures error.Some? ==>
              exists y, x :: 0 <= y < Height && 0 <= x < Width && CellCost(land, ice, Cell(x, y)) == Err(error.value)
    ensures error.Some? ==>
              (exists y, x :: FirstLandError(land, y, x, error.value)) ||
              (LandScansOk(land) && exists y, x :: FirstCellError(land, ice, y, x, error.value))
  {
    grid := new Cost[Height, Width]((i, j) => Water(OpenWaterCost));
    error := MarkLand(grid, land, ice);
    if error.None? {
      error := OverlayIce(grid, land, ice);
    }
  }

  /** Step 1 of `createCostGrid`: mark land. */
  method MarkLand(grid: array2<Cost>, land: seq<LandFeature>, ghost ice: seq<IceFeature>) returns (error: Option<string>)
    requires Shaped(grid) && LandPassUpTo(grid, land, 0, 0)
    modifies grid
    ensures error.None? ==> LandPassUpTo(grid, land, Height, 0)
    ensures error.Some? ==>
              exists y, x :: 0 <= y < Height && 0 <= x < Width && CellCost(land, ice, Cell(x, y)) == Err(error.value)
    ensures error.Some? ==> exists y, x :: FirstLandError(land, y, x, error.value)
  {
    error := None;
    for y := 0 to Height
      invariant LandPassUpTo(grid, land, y, 0)
    {
      for x := 0 to Width
        invariant LandPassUpTo(grid, land, y, x)
      {
        var hit := LandHitAt(GridToLonLat(x, y), land);
        if hit.Err? {
          error := Some(hit.error);
          assert CellCost(land, ice, Cell(x, y)) == Err(hit.error);
          assert FirstLandError(land, y, x, hit.error);
          return;
        }
        if hit.value {
          grid[y, x] := Land;
        }
      }
    }
  }

  /** Step 2 of `createCostGrid`: overlay ice cost on the cells that are
      not land. */
  method OverlayIce(grid: array2<Cost>, land: seq<LandFeature>, ice: seq<IceFeature>) returns (error: Option<string>)
    requires Shaped(grid) && IcePassUpTo(grid, land, ice, 0, 0)
    modifies grid
    ensures error.None? ==>
              forall y, x :: 0 <= y < Height && 0 <= x < Width ==> CellCost(land, ice, Cell(x, y)) == Ok(grid[y, x])
    ensures error.Some? ==>
              exists y, x :: 0 <= y < Height && 0 <= x < Width && CellCost(land, ice, Cell(x, y)) == Err(error.value)
    ensures error.Some? ==> exists y, x :: FirstCellError(land, ice, y, x, error.value)
  {
    error := None;
    for y := 0 to Height
      invariant IcePassUpTo(grid, land, ice, y, 0)
    {
      for x := 0 to Width
        invariant IcePassUpTo(grid, land, ice, y, x)
      {
        if grid[y, x] != Land {
          var v := IceHitAt(GridToLonLat(x, y), ice);
          if v.Err? {
            error := Some(v.error);
            assert CellCost(land, ice, Cell(x, y)) == Err(v.error);
            assert FirstCellError(land, ice, y, x, v.error);
            return;
          }
          if v.value.Some? {
            grid[y, x] := Water(OpenWaterCost + v.value.value * IceCostMultiplier);
          }
        }
      }
    }
    assert IcePassUpTo(grid, land, ice, Height, 0);
  }

  // ---------------------------------------------------------------------
  // What the reference definition means, for inputs the engine can read.
  // ---------------------------------------------------------------------

  /** Every Polygon, and every part of a MultiPolygon, has a first ring. */
  predicate WellFormedGeometry(g: Geometry) {
    match g
    case Polygon(rings) => |rings| > 0
    case MultiPolygon(parts) => forall k :: 0 <= k < |parts| ==> |parts[k]| > 0
    case _ => true
  }

  /** `p` lies inside the first ring of the polygon, or of some part. */
  predicate Covers(g: Geometry, p: Position) {
    match g
    case Polygon(rings) => |rings| > 0 && Inside(p, rings[0])
    case MultiPolygon(parts) => exists k :: 0 <= k < |parts| && |parts[k]| > 0 && Inside(p, parts[k][0])
    case _ => false
  }

  /** Land features all carry a readable geometry. */
  predicate WellFormedLand(land: seq<LandFeature>) {
    forall k :: 0 <= k < |land| ==> land[k].geometry.Some? && WellFormedGeometry(land[k].geometry.value)
  }

  /** Ice features may lack a geometry; those present are readable. */
  predicate WellFormedIce(ice: seq<IceFeature>) {
    forall k :: 0 <= k < |ice| ==> ice[k].geometry.Some? ==> WellFormedGeometry(ice[k].geometry.value)
  }

  predicate IceCovers(f: IceFeature, p: Position) {
    f.geometry.Some? && Covers(f.geometry.value, p)
  }

  predicate OnSomeLand(land: seq<LandFeature>, p: Position) {
    exists k :: 0 <= k < |land| && land[k].geometry.Some? && Covers(land[k].geometry.value, p)
  }

  /** Feature `k` is the first ice feature covering `p`. */
  predicate FirstIce(ice: seq<IceFeature>, p: Position, k: int) {
    0 <= k < |ice| && IceCovers(ice[k], p) && forall j :: 0 <= j < k ==> !IceCovers(ice[j], p)
  }

  lemma {:induction false} PartsHitCovers(p: Position, parts: seq<seq<Ring>>)
    requires forall k :: 0 <= k < |parts| ==> |parts[k]| > 0
    ensures PartsHit(p, parts) == Ok(exists k :: 0 <= k < |parts| && |parts[k]| > 0 && Inside(p, parts[k][0]))
  {
    if |parts| > 0 {
      PartsHitCovers(p, parts[1..]);
      if !Inside(p, parts[0][0]) {
        forall k | 0 <= k < |parts| && |parts[k]| > 0 && Inside(p, parts[k][0])
          ensures 1 <= k && parts[1..][k - 1] == parts[k]
        {
        }
      }
    }
  }

  lemma GeometryHitCovers(p: Position, g: Geometry)
    requires WellFormedGeometry(g)
    ensures GeometryHit(p, g) == Ok(Covers(g, p))
  {
    if g.MultiPolygon? {
      PartsHitCovers(p, g.polygons);
    }
  }

  /** A cell's land scan succeeds, and finds land exactly when the point is
      inside some land feature: the order of the features does not matter. */
  lemma {:induction false} LandScanIff(p: Position, land: seq<LandFeature>)
    requires WellFormedLand(land)
    ensures LandScan(p, land) == Ok(OnSomeLand(land, p))
  {
    if |land| > 0 {
      GeometryHitCovers(p, land[0].geometry.value);
      assert WellFormedLand(land[1..]) by {
        forall k | 0 <= k < |land[1..]| ensures land[1..][k] == land[k + 1] { }
      }
      LandScanIff(p, land[1..]);
      if !Covers(land[0].geometry.value, p) {
        if OnSomeLand(land, p) {
          var k :| 0 <= k < |land| && land[k].geometry.Some? && Covers(land[k].geometry.value, p);
          assert land[1..][k - 1] == land[k];
        }
        if OnSomeLand(land[1..], p) {
          var k :| 0 <= k < |land[1..]| && land[1..][k].geometry.Some? && Covers(land[1..][k].geometry.value, p);
          assert land[1..][k] == land[k + 1];
        }
      }
    }
  }

  /** The ice scan succeeds; it finds nothing when no ice feature covers
      `p`, and otherwise the value of the first feature that does. */
  lemma {:induction false} IceScanFirst(p: Position, ice: seq<IceFeature>)
    requires WellFormedIce(ice)
    ensures IceScan(p, ice).Ok?
    ensures IceScan(p, ice) == Ok(None) <==> forall k :: 0 <= k < |ice| ==> !IceCovers(ice[k], p)
    ensures forall k :: FirstIce(ice, p, k) ==> IceScan(p, ice) == Ok(Some(IceValue(ice[k])))
  {
    if |ice| > 0 {
      assert WellFormedIce(ice[1..]) by {
        forall k | 0 <= k < |ice[1..]| ensures ice[1..][k] == ice[k + 1] { }
      }
      IceScanFirst(p, ice[1..]);
      if ice[0].geometry.Some? {
        GeometryHitCovers(p, ice[0].geometry.value);
      }
      if IceCovers(ice[0], p) {
        forall k | FirstIce(ice, p, k) ensures k == 0 {
        }
      } else {
        forall k | FirstIce(ice, p, k) ensures FirstIce(ice[1..], p, k - 1) {
          assert k != 0;
          forall j | 0 <= j < k - 1 ensures !IceCovers(ice[1..][j], p) {
            assert ice[1..][j] == ice[j + 1];
          }
        }
        if forall k :: 0 <= k < |ice[1..]| ==> !IceCovers(ice[1..][k], p) {
          forall k | 0 <= k < |ice| ensures !IceCovers(ice[k], p) {
            if k > 0 {
              assert ice[k] == ice[1..][k - 1];
            }
          }
        } else {
          var k :| 0 <= k < |ice[1..]| && IceCovers(ice[1..][k], p);
          assert ice[k + 1] == ice[1..][k];
        }
      }
    }
  }

  /** The cost of every cell, for readable inputs:
      - land exactly when its lon/lat lies inside some land feature;
      - otherwise `1 + 3 * value` of the first ice feature covering it;
      - otherwise exactly the open-water cost 1.
      Land therefore always wins over ice. */
  lemma CellCostCharacterisation(land: seq<LandFeature>, ice: seq<IceFeature>, c: Cell)
    requires WellFormedLand(land) && WellFormedIce(ice)
    ensures var p := GridToLonLat(c.x, c.y);
      && CellCost(land, ice, c).Ok?
      && (CellCost(land, ice, c) == Ok(Land) <==> OnSomeLand(land, p))
      && (!OnSomeLand(land, p) && (forall k :: 0 <= k < |ice| ==> !IceCovers(ice[k], p)) ==>
            CellCost(land, ice, c) == Ok(Water(1.0)))
      && (forall k :: !OnSomeLand(land, p) && FirstIce(ice, p, k) ==>
            CellCost(land, ice, c) == Ok(Water(1.0 + 3.0 * IceValue(ice[k]))))
  {
    var p := GridToLonLat(c.x, c.y);
    LandScanIff(p, land);
    IceScanFirst(p, ice);
    CellCostOfScans(land, ice, c, OnSomeLand(land, p), IceScan(p, ice).value);
  }

  /** A cell's cost once both scans have succeeded. */
  lemma CellCostOfScans(land: seq<LandFeature>, ice: seq<IceFeature>, c: Cell, onLand: bool, v: Option<real>)
    requires LandScan(GridToLonLat(c.x, c.y), land) == Ok(onLand)
    requires IceScan(GridToLonLat(c.x, c.y), ice) == Ok(v)
    ensures CellCost(land, ice, c) ==
      if onLand then Ok(Land)
      else if v.None? then Ok(Water(OpenWaterCost))
      else Ok(Water(OpenWaterCost + v.value * IceCostMultiplier))
  {
  }

  /** With ice values in the documented range (non-negative), no water
      cell is cheaper than open water. */
  lemma WaterCostAtLeastOpenWater(land: seq<LandFeature>, ice: seq<IceFeature>, c: Cell)
    requires forall k :: 0 <= k < |ice| ==> IceValue(ice[k]) >= 0.0
    requires CellCost(land, ice, c).Ok? && CellCost(land, ice, c).value.Water?
    ensures CellCost(land, ice, c).value.cost >= OpenWaterCost
  {
    IceScanValue(GridToLonLat(c.x, c.y), ice);
  }

  /** A value returned by the ice scan is the value of one of the features. */
  lemma {:induction false} IceScanValue(p: Position, ice: seq<IceFeature>)
    ensures IceScan(p, ice).Ok? && IceScan(p, ice).value.Some? ==>
      exists k :: 0 <= k < |ice| && IceScan(p, ice).value.value == IceValue(ice[k])
  {
    if |ice| > 0 {
      IceScanValue(p, ice[1..]);
      var r := IceScan(p, ice);
      if r.Ok? && r.value.Some? && r != Ok(Some(IceValue(ice[0]))) {
        var k :| 0 <= k < |ice[1..]| && r.value.value == IceValue(ice[1..][k]);
        assert ice[1..][k] == ice[k + 1];
      }
    }
  }

  /** The 50 % example: a cell under a value-50 ice feature costs 151. */
  lemma FiftyPercentIceCosts151(land: seq<LandFeature>, ice: seq<IceFeature>, c: Cell)
    requires WellFormedLand(land) && WellFormedIce(ice)
    requires !OnSomeLand(land, GridToLonLat(c.x, c.y))
    requires FirstIce(ice, GridToLonLat(c.x, c.y), 0) && IceValue(ice[0]) == 50.0
    ensures CellCost(land, ice, c) == Ok(Water(151.0))
  {
    CellCostCharacterisation(land, ice, c);
  }
}
