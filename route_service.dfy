/** Orchestration in src/data/api.js: the cost grid built once and cached
    (`getCostGrid`) and the public routing call `API.bestRoute`. */
module RouteService {
  import opened Wrappers
  import opened GeoJson
  import opened GridMap
  import opened CostGrid
  import opened StaticData
  import opened AStar

  /** The ML ice GeoJSON document as loaded: its `type` member and its
      `features` member, which may be absent. */
  datatype IceDocument = IceDocument(kind: string, features: Option<seq<IceFeature>>)

  /** The ice features the grid is built from: those of the ML document
      when it is a FeatureCollection (none when it has no `features`),
      and the static ICE_DATA when the document is missing or of another
      type. */
  function ChooseIce(mlIce: Option<IceDocument>): (ice: seq<IceFeature>)
    ensures mlIce.None? ==> ice == IceData
    ensures mlIce.Some? && mlIce.value.kind != "FeatureCollection" ==> ice == IceData
    ensures mlIce.Some? && mlIce.value.kind == "FeatureCollection" && mlIce.value.features.None? ==> ice == []
    ensures mlIce.Some? && mlIce.value.kind == "FeatureCollection" && mlIce.value.features.Some? ==>
              ice == mlIce.value.features.value
  {
    if mlIce.Some? && mlIce.value.kind == "FeatureCollection" then mlIce.value.features.GetOr([])
    else IceData
  }

  /** A finished build: the grid, or the TypeError message that aborted it
      (the rejected promise, which stays cached). */
  datatype Build = Build(grid: array2<Cost>, error: Option<string>)

  const SuccessNotes: string := "A* route (grid: 120x90)."
  const FallbackSuffix: string := " Showing straight line as fallback."
  const StartOnLand: string := "Start point is on land."
  const EndOnLand: string := "End point is on land."
  const NoPath: string := "No A* path found."

  /** `e.message || "Routing error."` */
  function MessageOf(e: string): (m: string)
    ensures m != ""
    ensures e != "" ==> m == e
  {
    if e == "" then "Routing error." else e
  }

  /** The `{ route, notes }` object returned by `bestRoute`. */
  datatype RouteAnswer = RouteAnswer(route: seq<Feature<string>>, notes: string)

  function LineOf(cells: seq<Cell>): (line: seq<Position>)
    ensures |line| == |cells|
    ensures forall i :: 0 <= i < |cells| ==> line[i] == GridToLonLat(cells[i].x, cells[i].y)
  {
    if cells == [] then [] else LineOf(cells[..|cells| - 1]) + [GridToLonLat(cells[|cells| - 1].x, cells[|cells| - 1].y)]
  }

  /** The result-assembly branches of `bestRoute`: always a route line, a
      start point and a destination point, in that order; the line follows
      the path's cell centres on success and is the straight start-to-dest
      segment otherwise, with the error message in the notes. */
  function AssembleRoute(startLon: real, startLat: real, destLon: real, destLat: real,
                         outcome: Result<seq<Cell>, string>): (r: RouteAnswer)
    ensures |r.route| == 3
    ensures r.route[0].properties == "route" && r.route[0].geometry.Some? && r.route[0].geometry.value.LineString?
    ensures r.route[1] == Feature(Some(Point((startLon, startLat))), "start")
    ensures r.route[2] == Feature(Some(Point((destLon, destLat))), "dest")
    ensures outcome.Ok? ==>
              r.notes == SuccessNotes &&
              r.route[0].geometry.value.line == LineOf(outcome.value)
    ensures outcome.Err? ==>
              r.notes == MessageOf(outcome.error) + FallbackSuffix &&
              r.route[0].geometry.value.line == [(startLon, startLat), (destLon, destLat)]
  {
    var line := match outcome
      case Ok(cells) => LineOf(cells)
      case Err(_) => [(startLon, startLat), (destLon, destLat)];
    var notes := match outcome
      case Ok(_) => SuccessNotes
      case Err(e) => MessageOf(e) + FallbackSuffix;
    RouteAnswer([Feature(Some(LineString(line)), "route"),
                 Feature(Some(Point((startLon, startLat))), "start"),
                 Feature(Some(Point((destLon, destLat))), "dest")], notes)
  }

  /** What `bestRoute` decides for a finished build and the two snapped
      cells: the build error, a land endpoint (start checked first), no
      path when the destination cannot be reached over water, or a valid
      simple path when it can. */
  ghost predicate Decided(b: Build, start: Cell, end: Cell, outcome: Result<seq<Cell>, string>, path: seq<PathStep>)
    reads b.grid
    requires Shaped(b.grid) && InBounds(start) && InBounds(end)
  {
    match b.error
    case Some(e) => outcome == Err(e)
    case None =>
      if CostAt(b.grid, start) == Land then outcome == Err(StartOnLand)
      else if CostAt(b.grid, end) == Land then outcome == Err(EndOnLand)
      else if Reachable(b.grid, start, end) then
        outcome.Ok? && ValidPath(b.grid, start, end, path) && Simple(path) && outcome.value == CellsOf(path)
      else outcome == Err(NoPath)
  }

  /** On success the route line starts at the centre of the start's cell and
      ends at the centre of the destination's cell, and both centres map
      back to those cells. */
  lemma SuccessLineEndpoints(grid: array2<Cost>, startLon: real, startLat: real, destLon: real, destLat: real,
                             path: seq<PathStep>)
    requires Shaped(grid)
    requires ValidPath(grid, LonLatToGrid(startLon, startLat), LonLatToGrid(destLon, destLat), path)
    ensures var line := AssembleRoute(startLon, startLat, destLon, destLat, Ok(CellsOf(path))).route[0].geometry.value.line;
            |line| == |path| && |line| > 0 &&
            LonLatToGrid(line[0].0, line[0].1) == LonLatToGrid(startLon, startLat) &&
            LonLatToGrid(line[|line| - 1].0, line[|line| - 1].1) == LonLatToGrid(destLon, destLat)
  {
    var s := LonLatToGrid(startLon, startLat);
    var e := LonLatToGrid(destLon, destLat);
    RoundTrip(s);
    RoundTrip(e);
  }

  /** The module-level `costGridPromise` together with the routing call. */
  class Router {
    /** None until the first call; afterwards the first build, for good. */
    var cache: Option<Build>
    /** The ice features the cached build used. */
    ghost var builtFrom: seq<IceFeature>
    /** How many times a grid has been built. */
    ghost var builds: nat

    ghost predicate Valid()
      reads this, if cache.Some? then {cache.value.grid} else {}
    {
      (cache.None? <==> builds == 0) && builds <= 1 &&
      (cache.Some? ==> Rasterised(cache.value.grid, cache.value.error, LandData, builtFrom))
    }

    constructor()
      ensures Valid() && cache.None? && builds == 0
    {
      cache := None;
      builtFrom := [];
      builds := 0;
    }

    /** `getCostGrid`: the first call builds the grid from LAND_DATA and the
        chosen ice source; every later call returns that same build,
        whatever ice document it is given. */
    method GetCostGrid(mlIce: Option<IceDocument>) returns (b: Build)
      requires Valid()
      modifies this
      ensures Valid() && cache == Some(b) && builds == 1
      ensures old(cache).Some? ==> b == old(cache).value && builtFrom == old(builtFrom)
      ensures old(cache).None? ==> fresh(b.grid) && builtFrom == ChooseIce(mlIce)
      ensures Rasterised(b.grid, b.error, LandData, builtFrom)
    {
      if cache.Some? {
        return cache.value;
      }
      var ice := ChooseIce(mlIce);
      var grid, error := CreateCostGrid(LandData, ice);
      b := Build(grid, error);
      cache := Some(b);
      builtFrom := ice;
      builds := 1;
    }

    /** `API.bestRoute`: never fails to the caller; every failure becomes
        the straight-line fallback with its message in the notes. */
    method BestRoute(startLon: real, startLat: real, destLon: real, destLat: real, mlIce: Option<IceDocument>)
      returns (answer: RouteAnswer, ghost outcome: Result<seq<Cell>, string>, ghost path: seq<PathStep>)
      requires Valid()
      modifies this
      ensures Valid() && cache.Some? && builds == 1
      ensures old(cache).Some? ==> cache == old(cache) && builtFrom == old(builtFrom)
      ensures old(cache).None? ==> builtFrom == ChooseIce(mlIce)
      ensures Rasterised(cache.value.grid, cache.value.error, LandData, builtFrom)
      ensures answer == AssembleRoute(startLon, startLat, destLon, destLat, outcome)
      ensures Decided(cache.value, LonLatToGrid(startLon, startLat), LonLatToGrid(destLon, destLat), outcome, path)
    {
      var b := GetCostGrid(mlIce);
      var startNode := LonLatToGrid(startLon, startLat);
      var endNode := LonLatToGrid(destLon, destLat);
      var result: Result<seq<Cell>, string>;
      path := [];
      if b.error.Some? {
        result := Err(b.error.value);
      } else if b.grid[startNode.y, startNode.x] == Land {
        result := Err(StartOnLand);
      } else if b.grid[endNode.y, endNode.x] == Land {
        result := Err(EndOnLand);
      } else {
        var found: Option<seq<PathStep>>;
        ghost var expansions: nat;
        found, expansions := FindPathAStar(b.grid, startNode, endNode);
        if found.None? {
          result := Err(NoPath);
        } else {
          result := Ok(CellsOf(found.value));
          path := found.value;
        }
      }
      outcome := result;
      answer := AssembleRoute(startLon, startLat, destLon, destLat, result);
    }
  }
}
