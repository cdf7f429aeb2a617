/** The route summary helpers of src/pages/RoutePlanner.jsx: the bounding
    box of a route's lines, its length, the ETA and the start/destination
    swap. The haversine `distKm` is a parameter. */
module RoutePlanner {
  import opened Wrappers
  import opened GeoJson
  import opened Extents
  import opened Seqs
  import GridMap
  import RouteService

  /** The GeoJSON a route arrives as: a Feature, a FeatureCollection, or
      something else (read as neither). */
  datatype GeoDoc =
    | FeatureDoc(feature: Feature<string>)
    | CollectionDoc(features: seq<Feature<string>>)
    | OtherDoc

  /** The geometries `routeToBbox` scans, one per feature. */
  function Geometries(doc: GeoDoc): (gs: seq<Option<Geometry>>)
    ensures doc.CollectionDoc? ==>
              |gs| == |doc.features| && forall i :: 0 <= i < |gs| ==> gs[i] == doc.features[i].geometry
  {
    match doc
    case FeatureDoc(f) => [f.geometry]
    case CollectionDoc(fs) => seq(|fs|, i requires 0 <= i < |fs| => fs[i].geometry)
    case OtherDoc => []
  }

  /** `scan`: only LineString and MultiLineString coordinates count. */
  function Scanned(g: Geometry): seq<Position> {
    match g
    case LineString(ps) => ps
    case MultiLineString(ls) => Flatten(ls)
    case _ => []
  }

  function ScanParts(gs: seq<Option<Geometry>>): (parts: seq<seq<Position>>)
    ensures |parts| == |gs|
    ensures forall i :: 0 <= i < |gs| ==> parts[i] == (if gs[i].Some? then Scanned(gs[i].value) else [])
  {
    seq(|gs|, i requires 0 <= i < |gs| => if gs[i].Some? then Scanned(gs[i].value) else [])
  }

  predicate AllPresent(gs: seq<Option<Geometry>>) {
    forall i :: 0 <= i < |gs| ==> gs[i].Some?
  }

  /** `scan(null)` reads `type` of null. */
  const NullGeometryError: string := "Cannot read properties of null (reading 'type')"

  /** A null-or-box that corresponds to the four running bounds; `seen`
      is false while they still hold the ±Infinity start values. */
  function Box(seen: bool, minX: real, minY: real, maxX: real, maxY: real): Option<Extent> {
    if seen then Some(Extent(minX, minY, maxX, maxY)) else None
  }

  /** `push` over one coordinate list: in the start state (`seen` false,
      the bounds at ±Infinity) every comparison succeeds. */
  method ScanLine(seen: bool, minX: real, minY: real, maxX: real, maxY: real, ps: seq<Position>)
    returns (seen': bool, minX': real, minY': real, maxX': real, maxY': real)
    ensures Box(seen', minX', minY', maxX', maxY') == Spread(Box(seen, minX, minY, maxX, maxY), ps)
  {
    seen', minX', minY', maxX', maxY' := seen, minX, minY, maxX, maxY;
    for j := 0 to |ps|
      invariant Box(seen', minX', minY', maxX', maxY') == Spread(Box(seen, minX, minY, maxX, maxY), ps[..j])
    {
      assert ps[..j + 1][..j] == ps[..j];
      var (x, y) := ps[j];
      if !seen' || x < minX' { minX' := x; }
      if !seen' || y < minY' { minY' := y; }
      if !seen' || x > maxX' { maxX' := x; }
      if !seen' || y > maxY' { maxY' := y; }
      seen' := true;
    }
    assert ps[..|ps|] == ps;
  }

  /** `scan`: push the coordinates of a LineString, or of each line of a
      MultiLineString; any other geometry is skipped. */
  method ScanGeometry(seen: bool, minX: real, minY: real, maxX: real, maxY: real, g: Geometry)
    returns (seen': bool, minX': real, minY': real, maxX': real, maxY': real)
    ensures Box(seen', minX', minY', maxX', maxY') == Spread(Box(seen, minX, minY, maxX, maxY), Scanned(g))
  {
    seen', minX', minY', maxX', maxY' := seen, minX, minY, maxX, maxY;
    if g.LineString? {
      seen', minX', minY', maxX', maxY' := ScanLine(seen', minX', minY', maxX', maxY', g.line);
    } else if g.MultiLineString? {
      var ls := g.lines;
      ghost var before := Box(seen, minX, minY, maxX, maxY);
      for k := 0 to |ls|
        invariant Box(seen', minX', minY', maxX', maxY') == Spread(before, Flatten(ls[..k]))
      {
        seen', minX', minY', maxX', maxY' := ScanLine(seen', minX', minY', maxX', maxY', ls[k]);
        FlattenSnoc(ls, k);
        SpreadAppend(before, Flatten(ls[..k]), ls[k]);
      }
      assert ls[..|ls|] == ls;
    }
  }

  /** `routeToBbox`: null for null input or when no line coordinate is
      scanned, the TypeError of a feature without geometry, and otherwise
      `[minX, minY, maxX, maxY]` over the scanned coordinates. */
  method RouteToBbox(geo: Option<GeoDoc>) returns (r: Result<Option<Extent>, string>)
    ensures geo.None? ==> r == Ok(None)
    ensures geo.Some? && !AllPresent(Geometries(geo.value)) ==> r == Err(NullGeometryError)
    ensures geo.Some? && AllPresent(Geometries(geo.value)) ==>
              r == Ok(Spread(None, Flatten(ScanParts(Geometries(geo.value)))))
  {
    if geo.None? {
      return Ok(None);
    }
    var gs := Geometries(geo.value);
    ghost var parts := ScanParts(gs);
    var seen := false;
    var minX, minY, maxX, maxY := 0.0, 0.0, 0.0, 0.0;
    for i := 0 to |gs|
      invariant AllPresent(gs[..i])
      invariant Box(seen, minX, minY, maxX, maxY) == Spread(None, Flatten(parts[..i]))
    {
      if gs[i].None? {
        return Err(NullGeometryError);
      }
      seen, minX, minY, maxX, maxY := ScanGeometry(seen, minX, minY, maxX, maxY, gs[i].value);
      ScanPrefixStep(gs, i);
    }
    assert gs[..|gs|] == gs;
    assert parts[..|gs|] == parts;
    if !seen {
      return Ok(None);
    }
    return Ok(Some(Extent(minX, minY, maxX, maxY)));
  }

  /** Scanning one more present geometry spreads the box over its
      coordinates. */
  lemma ScanPrefixStep(gs: seq<Option<Geometry>>, i: nat)
    requires i < |gs| && AllPresent(gs[..i]) && gs[i].Some?
    ensures AllPresent(gs[..i + 1])
    ensures Spread(None, Flatten(ScanParts(gs)[..i + 1])) ==
            Spread(Spread(None, Flatten(ScanParts(gs)[..i])), Scanned(gs[i].value))
  {
    PresentSnoc(gs, i);
    var parts := ScanParts(gs);
    assert parts[i] == Scanned(gs[i].value);
    FlattenSnoc(parts, i);
    SpreadAppend(None, Flatten(parts[..i]), parts[i]);
  }

  lemma PresentSnoc(gs: seq<Option<Geometry>>, i: nat)
    requires i < |gs| && AllPresent(gs[..i]) && gs[i].Some?
    ensures AllPresent(gs[..i + 1])
  {
    assert gs[..i + 1] == gs[..i] + [gs[i]];
  }

  /** A box is returned only when some coordinate was scanned; it encloses
      every scanned coordinate and each bound is one of their values. */
  lemma RouteBoxBounds(doc: GeoDoc)
    requires AllPresent(Geometries(doc))
    ensures var ps := Flatten(ScanParts(Geometries(doc)));
            (Spread(None, ps).Some? <==> ps != []) &&
            (ps != [] ==>
               (forall i :: 0 <= i < |ps| ==> Encloses(Spread(None, ps).value, ps[i])) &&
               (exists i :: 0 <= i < |ps| && ps[i].0 == Spread(None, ps).value.minX) &&
               (exists i :: 0 <= i < |ps| && ps[i].1 == Spread(None, ps).value.minY) &&
               (exists i :: 0 <= i < |ps| && ps[i].0 == Spread(None, ps).value.maxX) &&
               (exists i :: 0 <= i < |ps| && ps[i].1 == Spread(None, ps).value.maxY))
  {
    SpreadBounds(Flatten(ScanParts(Geometries(doc))));
  }

  /** For the answer of `bestRoute`, only the route line is scanned: the
      start and destination Points are ignored. */
  lemma RouteAnswerScansLineOnly(startLon: real, startLat: real, destLon: real, destLat: real,
                                 outcome: Result<seq<GridMap.Cell>, string>)
    ensures var answer := RouteService.AssembleRoute(startLon, startLat, destLon, destLat, outcome);
            var doc := CollectionDoc(answer.route);
            AllPresent(Geometries(doc)) &&
            Flatten(ScanParts(Geometries(doc))) == answer.route[0].geometry.value.line
  {
    var answer := RouteService.AssembleRoute(startLon, startLat, destLon, destLat, outcome);
    var parts := ScanParts(Geometries(CollectionDoc(answer.route)));
    var line := answer.route[0].geometry.value.line;
    assert parts == [line, [], []];
    assert parts[..1] == [line] && parts[..2] == [line, []];
    assert parts[..1][..0] == [];
    assert Flatten(parts[..1]) == line;
    assert Flatten(parts[..2]) == line;
    assert parts[..3] == parts;
  }

  // ---------------------------------------------------------------------
  // Distance and ETA
  // ---------------------------------------------------------------------

  /** The lines `lineDistanceKm` measures: the LineString features of a
      FeatureCollection, or a LineString Feature; nothing else. */
  function LinesOf(geo: Option<GeoDoc>): seq<seq<Position>> {
    match geo
    case None => []
    case Some(FeatureDoc(f)) => if f.geometry.Some? && f.geometry.value.LineString? then [f.geometry.value.line] else []
    case Some(CollectionDoc(fs)) => LineStringsOf(fs)
    case Some(OtherDoc) => []
  }

  function LineStringsOf(fs: seq<Feature<string>>): seq<seq<Position>> {
    if fs == [] then []
    else
      var f := fs[|fs| - 1];
      LineStringsOf(fs[..|fs| - 1]) + (if f.geometry.Some? && f.geometry.value.LineString? then [f.geometry.value.line] else [])
  }

  /** The sum of `dist` over consecutive coordinate pairs. */
  function LineLength(coords: seq<Position>, dist: (Position, Position) -> real): real {
    if |coords| < 2 then 0.0
    else LineLength(coords[..|coords| - 1], dist) + dist(coords[|coords| - 2], coords[|coords| - 1])
  }

  /** No line has two positions, so no line has a segment. */
  predicate NoSegments(lines: seq<seq<Position>>) {
    forall i :: 0 <= i < |lines| ==> |lines[i]| < 2
  }

  function TotalLength(lines: seq<seq<Position>>, dist: (Position, Position) -> real): (total: real)
    ensures NoSegments(lines) ==> total == 0.0
  {
    if lines == [] then 0.0 else TotalLength(lines[..|lines| - 1], dist) + LineLength(lines[|lines| - 1], dist)
  }

  /** `lineDistanceKm`: collect the lines, then add up the distance of
      every consecutive pair of every line. */
  method LineDistanceKm(geo: Option<GeoDoc>, dist: (Position, Position) -> real) returns (total: real)
    ensures total == TotalLength(LinesOf(geo), dist)
  {
    if geo.None? {
      return 0.0;
    }
    var lines: seq<seq<Position>> := [];
    match geo.value {
      case CollectionDoc(fs) =>
        for i := 0 to |fs|
          invariant lines == LineStringsOf(fs[..i])
        {
          assert fs[..i + 1][..i] == fs[..i];
          var g := fs[i].geometry;
          if g.Some? && g.value.LineString? {
            lines := lines + [g.value.line];
          }
        }
        assert fs[..|fs|] == fs;
      case FeatureDoc(f) =>
        if f.geometry.Some? && f.geometry.value.LineString? {
          lines := lines + [f.geometry.value.line];
        }
      case OtherDoc =>
    }
    total := 0.0;
    for k := 0 to |lines|
      invariant total == TotalLength(lines[..k], dist)
    {
      assert lines[..k + 1][..k] == lines[..k];
      var coords := lines[k];
      ghost var before := total;
      var i := 1;
      while i < |coords|
        invariant 1 <= i && (|coords| > 0 ==> i <= |coords|)
        invariant total == before + LineLength(coords[..if i <= |coords| then i else |coords|], dist)
      {
        assert coords[..i + 1][..i] == coords[..i];
        total := total + dist(coords[i - 1], coords[i]);
        i := i + 1;
      }
      assert coords[..if i <= |coords| then i else |coords|] == coords;
    }
    assert lines[..|lines|] == lines;
  }

  /** With a non-negative distance every length is non-negative. */
  lemma {:induction false} LineLengthNonNegative(coords: seq<Position>, dist: (Position, Position) -> real)
    requires forall a, b :: dist(a, b) >= 0.0
    ensures LineLength(coords, dist) >= 0.0
    decreases |coords|
  {
    if |coords| >= 2 {
      LineLengthNonNegative(coords[..|coords| - 1], dist);
    }
  }

  lemma {:induction false} TotalLengthNonNegative(lines: seq<seq<Position>>, dist: (Position, Position) -> real)
    requires forall a, b :: dist(a, b) >= 0.0
    ensures TotalLength(lines, dist) >= 0.0
    decreases |lines|
  {
    if lines != [] {
      TotalLengthNonNegative(lines[..|lines| - 1], dist);
      LineLengthNonNegative(lines[|lines| - 1], dist);
    }
  }

  /** The straight-line fallback route measures `dist(start, dest)`. */
  lemma FallbackLength(a: Position, b: Position, dist: (Position, Position) -> real)
    ensures LineLength([a, b], dist) == dist(a, b)
  {
    assert [a, b][..1] == [a];
  }

  const KnotsToKmh: real := 1.852
  const MinSpeedKmh: real := 0.000001

  /** `etaHours`: distance over the speed in km/h, the speed floored at
      1e-6 so that the divisor is never zero. */
  function EtaHours(distanceKm: real, speedKnots: real): (h: real)
    ensures speedKnots * KnotsToKmh >= MinSpeedKmh ==> h * (speedKnots * KnotsToKmh) == distanceKm
    ensures speedKnots * KnotsToKmh < MinSpeedKmh ==> h * MinSpeedKmh == distanceKm
    ensures distanceKm >= 0.0 ==> h >= 0.0
  {
    var kmph := if MinSpeedKmh >= speedKnots * KnotsToKmh then MinSpeedKmh else speedKnots * KnotsToKmh;
    distanceKm / kmph
  }

  /** `swap`: the start becomes the destination and vice versa. */
  function Swap(start: Position, dest: Position): (r: (Position, Position))
    ensures r.0 == dest && r.1 == start
  {
    (dest, start)
  }

  lemma SwapTwice(start: Position, dest: Position)
    ensures Swap(Swap(start, dest).0, Swap(start, dest).1) == (start, dest)
  {
  }
}
