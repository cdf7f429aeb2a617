/** The fixed routing grid and the conversions between lon/lat and grid
    cells (src/data/api.js, `GRID_BOUNDS`, `GRID_WIDTH`, `GRID_HEIGHT`,
    `lonLatToGrid`, `gridToLonLat`). */
module GridMap {
  import opened GeoJson

  const MinLon: real := -93.0
  const MaxLon: real := -80.0
  const MinLat: real := 41.5
  const MaxLat: real := 49.0

  /** Columns (longitude) and rows (latitude). Row 0 is the northern edge. */
  const Width: int := 120
  const Height: int := 90

  /** A grid cell: column `x`, row `y`. The source keys cells by the string
      "x,y", which is injective on integer pairs, so the cell itself is the key. */
  datatype Cell = Cell(x: int, y: int)

  predicate InBounds(c: Cell) {
    0 <= c.x < Width && 0 <= c.y < Height
  }

  /** `Math.round`: the nearest integer, halves rounded up. */
  function Round(r: real): (n: int)
    ensures r - 0.5 < n as real <= r + 0.5
  {
    (r + 0.5).Floor
  }

  /** `Math.max(lo, Math.min(v, hi))`. */
  function Clamp(v: int, lo: int, hi: int): (r: int)
    requires lo <= hi
    ensures lo <= r <= hi
    ensures lo <= v <= hi ==> r == v
    ensures v < lo ==> r == lo
    ensures v > hi ==> r == hi
  {
    if v < lo then lo else if v > hi then hi else v
  }

  /** Fractional column of a longitude (0 at MinLon, Width at MaxLon). */
  function ColumnOf(lon: real): real {
    ((lon - MinLon) / (MaxLon - MinLon)) * Width as real
  }

  /** Fractional row of a latitude (0 at MaxLat, Height at MinLat). */
  function RowOf(lat: real): real {
    ((MaxLat - lat) / (MaxLat - MinLat)) * Height as real
  }

  /** `lonLatToGrid`: round to the nearest cell, clamped into the grid. */
  function LonLatToGrid(lon: real, lat: real): (c: Cell)
    ensures InBounds(c)
    ensures lon <= MinLon ==> c.x == 0
    ensures lon >= MaxLon ==> c.x == Width - 1
    ensures lat >= MaxLat ==> c.y == 0
    ensures lat <= MinLat ==> c.y == Height - 1
  {
    Cell(Clamp(Round(ColumnOf(lon)), 0, Width - 1), Clamp(Round(RowOf(lat)), 0, Height - 1))
  }

  /** `gridToLonLat`: the exact inverse linear map, `[lon, lat]`. */
  function GridToLonLat(x: int, y: int): (p: Position)
    ensures 0 <= x < Width ==> MinLon <= p.0 < MaxLon
    ensures 0 <= y < Height ==> MinLat < p.1 <= MaxLat
  {
    ((x as real / Width as real) * (MaxLon - MinLon) + MinLon,
     MaxLat - (y as real / Height as real) * (MaxLat - MinLat))
  }

  /** Every in-range cell survives the round trip through lon/lat. */
  lemma RoundTrip(c: Cell)
    requires InBounds(c)
    ensures LonLatToGrid(GridToLonLat(c.x, c.y).0, GridToLonLat(c.x, c.y).1) == c
  {
    var p := GridToLonLat(c.x, c.y);
    assert ColumnOf(p.0) == c.x as real;
    assert RowOf(p.1) == c.y as real;
  }

  /** Mapping is monotone: further east never gives a smaller column, and
      further south never gives a smaller row. */
  lemma Monotone(lon1: real, lat1: real, lon2: real, lat2: real)
    requires lon1 <= lon2 && lat1 >= lat2
    ensures LonLatToGrid(lon1, lat1).x <= LonLatToGrid(lon2, lat2).x
    ensures LonLatToGrid(lon1, lat1).y <= LonLatToGrid(lon2, lat2).y
  {
    assert ColumnOf(lon1) <= ColumnOf(lon2);
    assert RowOf(lat1) <= RowOf(lat2);
  }

  /** A point of the bounding region maps to a cell whose own lon/lat lies
      within one cell of it (half a cell, except at the clamped far edges). */
  lemma NearestCell(lon: real, lat: real)
    requires MinLon <= lon <= MaxLon && MinLat <= lat <= MaxLat
    ensures var c := LonLatToGrid(lon, lat);
            var q := GridToLonLat(c.x, c.y);
            -(MaxLon - MinLon) / Width as real <= q.0 - lon <= (MaxLon - MinLon) / (2 * Width) as real &&
            -(MaxLat - MinLat) / (2 * Height) as real <= q.1 - lat <= (MaxLat - MinLat) / Height as real
  {
    var c := LonLatToGrid(lon, lat);
    var q := GridToLonLat(c.x, c.y);
    assert 0.0 <= ColumnOf(lon) <= Width as real;
    assert 0.0 <= RowOf(lat) <= Height as real;
    assert ColumnOf(lon) - 1.0 <= c.x as real <= ColumnOf(lon) + 0.5;
    assert RowOf(lat) - 1.0 <= c.y as real <= RowOf(lat) + 0.5;
    assert q.0 == lon + (c.x as real - ColumnOf(lon)) * (MaxLon - MinLon) / Width as real;
    assert q.1 == lat - (c.y as real - RowOf(lat)) * (MaxLat - MinLat) / Height as real;
  }
}
