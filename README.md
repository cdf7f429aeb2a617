# Great Lakes ice routing — a Dafny model

This project models the core of a Great Lakes ice-aware marine routing web
application and its offline machine-learning exporter:

- **Routing engine** (`src/data/api.js`):
  - the static land and ice polygons;
  - the ray-casting point-in-polygon test;
  - the 120 × 90 cost grid over the lakes: land is impassable, water costs 1, ice raises the cost by 3 per unit of ice value;
  - the lazily built, once-only cost-grid cache;
  - the A* search with its `|| Infinity` score quirk;
  - `bestRoute`, which answers with a route, start and destination, or a straight-line fallback with a note.
- **Alerts page** (`src/pages/AlertsMap.jsx`):
  - severity ranks and colours;
  - event tags;
  - the URL `kind`/`bbox` parameters;
  - feature bounding boxes and the Great Lakes overlap test;
  - de-duplication by id;
  - the filtered list, sorted by severity then expiry and cut at 120;
  - counts per tag.
- **Route planner** (`src/pages/RoutePlanner.jsx`): the route's bounding box, its length, the ETA and the start/destination swap.
- **Ice-frame player** (`src/hooks/useIceFrames.js`): frame loading, speed clamping, play/pause/toggle and the animation tick. It is modelled as a class whose fields are the hook's state.
- **ML side** (`ml/model.py`, `ml/train_and_export.py`):
  - the AR(1) SST forecast;
  - the learned SST → ice lookup: bins, carry-forward, digitize and classification;
  - the heuristic SST → ice fields;
  - the two GeoJSON exporters (per grid cell, and per coarse block).

Modelling conventions:

- JavaScript and Python numbers are `real`s. Exact arithmetic stands in for floating point.
- A non-finite value is `NaN` in `Numeric.Float`.
- A thrown exception is the `Err` side of a `Result`, and its message is the string the runtime would put in it.
- A* nodes with parent pointers become an arena: a sequence of expanded nodes whose `parent` is an index into it.
- Loops in the source are `method`s with invariants. Each is proved equal to a function or predicate that states what the loop computes.
- The player and the router cache are classes with `modifies` frames.

## Model

| member | source | states |
|---|---|---|
| PointInPolygon.Prev | src/data/api.js:385 | vertex i is paired with the one before it, and vertex 0 with the last one |
| PointInPolygon.Crossings | src/data/api.js:385-392 | among the first k edges at most k are crossed |
| PointInPolygon.IsPointInPolygon | src/data/api.js:382-394 | the loop answers "inside" exactly when an odd number of edges cross the ray to the right of the point |
| PointInPolygon.HorizontalEdgeNeverCrosses | src/data/api.js:388-390 | a horizontal edge never toggles the answer, so the division by zero on it is never decisive |
| PointInPolygon.EmptyRingContainsNothing | src/data/api.js:384-385 | an empty ring contains no point |
| PointInPolygon.ClosingRingPreservesInside | src/data/api.js:385-392 | repeating the first vertex at the end, as a closed GeoJSON ring does, leaves the answer unchanged |
| GridMap.Round | src/data/api.js:532 | `Math.round` gives the nearest integer, rounding halves up |
| GridMap.Clamp | src/data/api.js:532-533 | the result stays within the bounds and equals the input when the input is already within them |
| GridMap.LonLatToGrid | src/data/api.js:521-535 | every lon/lat maps to a cell of the 120 × 90 grid; points west, east, north or south of the box map to the corresponding edge column or row |
| GridMap.GridToLonLat | src/data/api.js:538-548 | the corner of a grid cell lies inside the routing box |
| GridMap.RoundTrip | src/data/api.js:521-548 | converting a cell to lon/lat and back gives the same cell |
| GridMap.Monotone | src/data/api.js:521-535 | moving east never lowers the column, and moving south never lowers the row |
| GridMap.NearestCell | src/data/api.js:521-548 | for a point inside the box, the chosen cell's corner is within one cell (half a cell on one side) of the point |
| StaticData.StaticDataWellFormed | src/data/api.js:11-335 | the built-in land features all carry a geometry, and every Polygon and every MultiPolygon part of both collections has an outer ring, so rasterising them cannot throw |
| CostGrid.IceValue | src/data/api.js:599 | the ice value is the feature's `value`, or 0 when the properties or the value are missing |
| CostGrid.RingsHitAt | src/data/api.js:566-567 | one polygon is tested on its outer ring only, and a polygon without rings fails with the runtime's TypeError |
| CostGrid.GeometryHitAt | src/data/api.js:565-581 | a Polygon tests its outer ring, a MultiPolygon each polygon's outer ring; other types never hit |
| CostGrid.LandHitAt | src/data/api.js:564-582 | the scan over land features stops at the first hit and throws on a null geometry |
| CostGrid.IceHitAt | src/data/api.js:594-619 | the scan over ice features skips a null geometry and yields the first covering feature's value |
| CostGrid.CellCost | src/data/api.js:552-623 | a cell is Land exactly when the land scan of its sample point says so, and a land scan that throws makes the cell throw |
| CostGrid.CreateCostGrid | src/data/api.js:552-623 | returns a fresh 90 × 120 grid in which every cell holds its land/ice cost; otherwise the error is the one of the first cell, in row-major order, whose land test throws, or, when every land test succeeds, of the first cell whose ice test throws |
| CostGrid.MarkLand | src/data/api.js:558-584 | the land pass marks exactly the cells whose sample point lies in some land polygon, or reports the error of the first cell, in row-major order, whose land test throws |
| CostGrid.OverlayIce | src/data/api.js:587-621 | the ice pass leaves land cells alone and gives each water cell 1 + 3·(first covering ice value), or reports the error of the first cell, in row-major order, whose cost cannot be computed |
| CostGrid.PartsHitCovers | src/data/api.js:571-580 | a MultiPolygon hit means some polygon's outer ring contains the point |
| CostGrid.GeometryHitCovers | src/data/api.js:565-581 | the geometry test is exactly "the outer ring of some polygon of the geometry contains the point" |
| CostGrid.LandScanIff | src/data/api.js:564-582 | on well-formed land the scan answers "land" exactly when some land feature covers the point |
| CostGrid.IceScanFirst | src/data/api.js:594-619 | the ice scan never fails; it finds no value exactly when no ice feature covers the point, and otherwise finds the first covering feature's value |
| CostGrid.CellCostCharacterisation | src/data/api.js:552-623 | a cell is Land exactly when its sample point (the `gridToLonLat` corner) is on land; uncovered water costs 1; water under ice costs 1 + 3·v for the first covering feature |
| CostGrid.WaterCostAtLeastOpenWater | src/data/api.js:599-601 | ice with a non-negative value never makes water cheaper than open water |
| CostGrid.IceScanValue | src/data/api.js:599 | any value the ice scan finds is the value of one of the ice features |
| CostGrid.FiftyPercentIceCosts151 | src/data/api.js:408-409 | a water cell under 50 % ice costs 1 + 50·3 = 151 |
| AStar.ISqrt | src/data/api.js:415 | the integer square root r satisfies r² ≤ m < (r+1)² |
| AStar.Heuristic | src/data/api.js:414-416 | the heuristic is non-negative and its square is at most the squared grid distance between the cells |
| AStar.HeuristicBounds | src/data/api.js:414-416 | the heuristic is non-negative, its square is at most the squared grid distance, and it is within 2⁻²⁰ below the true root |
| AStar.RootBounds | src/data/api.js:415 | the scaled root is a non-negative value within 2⁻²⁰ below the exact square root |
| AStar.HeuristicOfGoalIsZero | src/data/api.js:414-416 | the heuristic from a cell to itself is 0 |
| AStar.GetNeighbors | src/data/api.js:419-433 | the list holds exactly the in-grid cells adjacent to the node (the 8-neighbourhood), in the dx-then-dy order of the loops |
| AStar.NeighborsDistinct | src/data/api.js:419-433 | that order lists no cell twice |
| AStar.AllCellsCount | src/data/api.js:404-405 | the grid has exactly 120 · 90 cells, which bounds the number of expansions |
| AStar.LowestF | src/data/api.js:450-454 | the scan picks the first open node of least f |
| AStar.FindOpen | src/data/api.js:498-500 | `find` returns the first open node for the cell, or none when the cell is not open |
| AStar.Improves | src/data/api.js:493 | with `|| Infinity`, a recorded score of 0 never blocks an update; re-offering a positive recorded score, or a worse one, does not improve it |
| AStar.Relax | src/data/api.js:485-513 | when the new g improves on the recorded score (0 counting as unrecorded), the score is updated, and the first open node for the cell is re-parented or a new node is pushed; otherwise nothing changes |
| AStar.Reconstruct | src/data/api.js:458-466 | following the parent links back from the goal gives a path that starts at the start with g = 0, ends at the goal, visits each cell once and takes valid steps |
| AStar.ExpandNeighbors | src/data/api.js:473-514 | the neighbour loop keeps the open-list, closed-set and arena invariants, closes only land cells, and leaves every water neighbour of every examined cell closed or open |
| AStar.VisitNeighbor | src/data/api.js:474-513 | a closed neighbour changes nothing; a land neighbour is added to the closed set and nothing else changes; a water neighbour is relaxed with g = parent g + step cost (score and open node updated when it improves, nothing changed otherwise); afterwards the neighbour is closed or open and the invariants hold |
| AStar.VisitWater | src/data/api.js:485-513 | relaxing a water neighbour updates score and open node exactly when g improves, keeps every open node linked to an expanded parent by an adjacent water step with g = parent g + step cost, and leaves the neighbour open or closed |
| AStar.Pop | src/data/api.js:455-470 | removing the lowest-f node and closing its cell keeps the arena, open-list and closed-set invariants, and the frontier while that cell is being examined |
| AStar.ReachGoal | src/data/api.js:458-466 | when the goal is popped, the reconstructed path is valid and simple, so the goal is reachable over water; it is the single start step when start = end, and otherwise ends on water |
| AStar.FindPathAStar | src/data/api.js:436-517 | a returned path is a valid, simple water path from start to end; null is returned exactly when no walk over adjacent water cells leads from start to end, and then no valid path exists; start = end gives the single start step; a land end (with start ≠ end) gives null; at most 120 · 90 expansions |
| AStar.Expand | src/data/api.js:450-514 | one iteration that does not reach the goal pops an in-grid, not yet closed cell, closes it and keeps the whole loop invariant, including the frontier |
| AStar.RelaxCovers | src/data/api.js:493-512 | relaxing keeps every open cell in its place, gives a score only to the neighbour, and leaves an improved neighbour in the open list |
| AStar.CoveredGrows | src/data/api.js:470-512 | a cell that is closed or open stays so while the open list keeps its cells and the closed set grows |
| AStar.CoveredPop | src/data/api.js:455-470 | popping a node and closing its cell leaves every closed or open cell closed or open |
| AStar.FrontierPop | src/data/api.js:455-470 | popping keeps the frontier: every water neighbour of an examined cell, and every scored cell, is closed or open |
| AStar.FrontierCloseLand | src/data/api.js:479-481 | closing a land neighbour keeps the frontier |
| AStar.FrontierRelax | src/data/api.js:493-512 | relaxing a water neighbour keeps the frontier |
| AStar.FrontierFinish | src/data/api.js:473-514 | once every neighbour of the popped cell is closed or open, that cell counts as examined |
| AStar.CoversPrefixGrows | src/data/api.js:473-514 | the neighbours handled so far stay closed or open as the loop goes on |
| AStar.WalkStaysClosed | src/data/api.js:450-516 | when the open list runs empty, every cell of a water walk from the start is closed |
| AStar.ExhaustedUnreachable | src/data/api.js:450-516 | when the open list runs empty before the goal is popped, no water walk reaches the goal |
| AStar.NotAWalk | src/data/api.js:450-516 | no cell sequence is a water walk from start to goal after the search ran dry |
| AStar.ValidPathIsWalk | src/data/api.js:458-466 | the cells of a valid path form a water walk from start to end |
| AStar.UnreachableNoPath | src/data/api.js:436-517 | without a water walk there is no valid path at all |
| AStar.StepsAccumulateCost | src/data/api.js:488-490 | along a path of valid steps, the last g equals the first g plus the sum of the step costs |
| AStar.PathScoreIsRouteCost | src/data/api.js:436-517 | the g of the returned path's last node is its total route cost (every move 1 or 1.414 times the destination's cost) |
| AStar.DiagonalBound | src/data/api.js:410-416 | the Euclidean heuristic between two diagonal-or-beyond cells exceeds the diagonal move cost 1.414 |
| AStar.HeuristicExceedsDiagonalStep | src/data/api.js:410-416 | for one diagonal step the heuristic exceeds the open-water step cost |
| RouteService.ChooseIce | src/data/api.js:646-649 | the router uses the ML ice document only when it is a FeatureCollection: its features when present, none when absent; otherwise, or with no document, the static ice data |
| RouteService.MessageOf | src/data/api.js:823 | the fallback message is never empty: an error's own message when it has one, else "Routing error." |
| RouteService.LineOf | src/data/api.js:791-793 | the route line holds the lon/lat of each path cell in order |
| RouteService.AssembleRoute | src/data/api.js:766-859 | the answer has the route line, the start point and the destination point; on success the note is "A* route (grid: 120x90)." and the line follows the path; on failure the note is the error's message plus " Showing straight line as fallback." and the line joins start to destination |
| RouteService.SuccessLineEndpoints | src/data/api.js:773-793 | a successful route line starts in the start's cell and ends in the destination's cell |
| RouteService.Router.constructor | src/data/api.js:627 | a new router has no cached grid and no build |
| RouteService.Router.GetCostGrid | src/data/api.js:630-666 | the first call builds the grid from the chosen ice data; every later call returns the same cached build; the build is the rasterisation of land and ice |
| RouteService.Router.BestRoute | src/data/api.js:764-860 | the grid decided on is the one rasterised from LAND_DATA and the chosen ice: on a first call `ChooseIce(mlIce)`, on later calls the cached build's ice; the answer is assembled from an outcome decided in this priority: that build's error, "Start point is on land.", "End point is on land.", then "No A* path found." exactly when no water walk joins the two cells, and otherwise a valid simple path |
| Text.Lower | src/pages/AlertsMap.jsx:36 | lower-casing keeps the length and maps each character independently |
| Text.LowerIdempotent | src/pages/AlertsMap.jsx:166-168 | lower-casing twice is lower-casing once, so the lower-cased keywords match the lower-cased text |
| Text.ContainsIff | src/pages/AlertsMap.jsx:45-48 | `includes` holds exactly when the needle occurs at some index |
| Text.Trim | src/pages/AlertsMap.jsx:386 | trimming never lengthens a string, and the result starts and ends with a non-space |
| Text.TrimIsSlice | src/pages/AlertsMap.jsx:386 | the trimmed string is a slice of the input with only white space cut from either end |
| Text.SplitJoin | src/pages/AlertsMap.jsx:157 | joining the parts of a split with the separator gives the input back, and the number of parts is one more than the number of separators |
| Text.SplitPartsFree | src/pages/AlertsMap.jsx:157 | no part of a split holds the separator |
| Text.NatToString | ml/model.py:317 | a number prints as a non-empty decimal without leading zeros |
| Text.NatToStringValue | ml/model.py:317 | the printed digits read back as the number |
| Text.NumberOf | src/pages/AlertsMap.jsx:157 | `Number` of an empty or all-space string is 0 |
| Text.TrimNoSpace | src/pages/AlertsMap.jsx:157 | text without white space is left alone by trimming |
| Text.DigitsHaveNoPoint | src/pages/AlertsMap.jsx:157 | a run of digits holds no decimal point |
| Text.UnsignedDigits | src/pages/AlertsMap.jsx:157 | a non-empty run of digits reads as its decimal value |
| Text.NumberOfNat | src/pages/AlertsMap.jsx:157 | `Number` of the decimal text of a natural number is that number |
| Text.NumberOfNegatedNat | src/pages/AlertsMap.jsx:157 | a leading minus sign negates it |
| Text.UnsignedRejects | src/pages/AlertsMap.jsx:157 | a literal holding a character other than a digit or a point is not a number |
| Text.NumberOfRejects | src/pages/AlertsMap.jsx:157 | a trimmed string holding a character other than a digit, a point or a sign gives NaN |
| Extents.SpreadAppend | src/pages/AlertsMap.jsx:19-31 | pushing two runs of points one after the other is pushing their concatenation |
| Extents.SpreadBounds | src/pages/RoutePlanner.jsx:322-345 | the accumulated box exists exactly when some point was pushed; it encloses every point and each of its four sides is attained by a point |
| AlertsMap.SevRank | src/pages/AlertsMap.jsx:35-42 | the rank is 4, 3, 2 or 1 exactly for "extreme", "severe", "moderate" or "minor" in any case, else 0 |
| AlertsMap.SevRankIgnoresCase | src/pages/AlertsMap.jsx:36 | the rank does not depend on letter case |
| AlertsMap.SevRankExamples | src/pages/AlertsMap.jsx:35-42 | "Severe" ranks 3, and a missing severity ranks 0 |
| AlertsMap.ColorForSev | src/pages/AlertsMap.jsx:51-57 | rank ≥ 4 is red, 3 orange, 2 amber, 1 yellow and ≤ 0 grey, each colour for exactly its ranks |
| AlertsMap.SeverityColours | src/pages/AlertsMap.jsx:35-57 | red, orange, amber and yellow mark exactly the "extreme", "severe", "moderate" and "minor" alerts (in any case), grey exactly the unranked ones; the five ranks 0–4 get five different colours |
| AlertsMap.TagFromEvent | src/pages/AlertsMap.jsx:43-50 | "marine" exactly for the marine words; "flood" exactly for "flood" without them; "wind" exactly for wind/storm words with neither; "winter" exactly for winter words with none of those; "other" exactly when none matches |
| AlertsMap.WinterStormWarningIsWind | src/pages/AlertsMap.jsx:45-48 | "Winter Storm Warning" is tagged wind, since "storm" is tested before "winter" |
| AlertsMap.Walk | src/pages/AlertsMap.jsx:20-28 | the corrected walk of the first Findings row: it pushes exactly the positions of the geometry, the members of a GeometryCollection included, in order |
| AlertsMap.FeatureBBox | src/pages/AlertsMap.jsx:17-32 | the corrected box of the first Findings row: null exactly when the geometry is missing or has no position, and otherwise the tightest box around those positions |
| AlertsMap.VisitedAsWritten | src/pages/AlertsMap.jsx:20-28 | as written, the walk agrees with the corrected one except that it pushes nothing at all for a GeometryCollection |
| AlertsMap.CollectionBoxLostAsWritten | src/pages/AlertsMap.jsx:20-28 | as written, a GeometryCollection holding a Point yields no box, although its point does have one |
| AlertsMap.InGL | src/pages/AlertsMap.jsx:242-248 | an alert without a box is kept, and a box sharing a point with the Great Lakes box is kept |
| AlertsMap.InGLIffSharedPoint | src/pages/AlertsMap.jsx:242-248 | a box passes the Great Lakes test exactly when it shares at least one point with the Great Lakes box |
| AlertsMap.TouchingEdgeKept | src/pages/AlertsMap.jsx:247 | a box that only touches the Great Lakes box's west edge is kept |
| AlertsFeed.DedupStep | src/pages/AlertsMap.jsx:259-262 | one iteration keeps the map and its insertion order equal to the first alert seen for each key |
| AlertsFeed.Dedup | src/pages/AlertsMap.jsx:258-263 | the merged list is the first alert of each id (anonymous alerts are each their own key), in first-seen order |
| AlertsFeed.FirstOccurrencesMembers | src/pages/AlertsMap.jsx:258-263 | the merged list holds exactly those alerts that are the first occurrence of their key |
| AlertsFeed.Origins | src/pages/AlertsMap.jsx:258-263 | there is one origin index per merged alert |
| AlertsFeed.OriginsFaithful | src/pages/AlertsMap.jsx:258-263 | each merged alert comes from an input position that is the first occurrence of its key, and those positions strictly increase, so input order is kept |
| AlertsFeed.DedupIdsUnique | src/pages/AlertsMap.jsx:258-263 | no two merged alerts share a key |
| AlertsFeed.KindParam | src/pages/AlertsMap.jsx:153-155 | the `kind` parameter is adopted exactly when it names a known keyword list |
| AlertsFeed.ParseBBoxAccepts | src/pages/AlertsMap.jsx:156-160 | the `bbox` parameter is adopted exactly when it splits at commas into four numeric parts |
| AlertsFeed.ParseBBoxParam | src/pages/AlertsMap.jsx:156-160 | an accepted bbox parameter has exactly three commas |
| AlertsFeed.Keep | src/pages/AlertsMap.jsx:388-399 | with an empty query and no known kind, an alert is kept exactly when its tag is enabled and its rank reaches the minimum |
| AlertsFeed.FilterAlerts | src/pages/AlertsMap.jsx:388-399 | the kept alerts pass the tag, severity, kind and query filters; every input alert that passes is kept; none is invented |
| AlertsFeed.FilterAppend | src/pages/AlertsMap.jsx:388-399 | filtering a concatenation is concatenating the filtered parts, so input order is kept |
| AlertsFeed.FilterSingle | src/pages/AlertsMap.jsx:388-399 | one alert is kept exactly when it passes every filter |
| AlertsFeed.FilterMultiplicity | src/pages/AlertsMap.jsx:388-399 | a passing alert is kept as often as it occurs in the input, a failing one never |
| AlertsFeed.Insert | src/pages/AlertsMap.jsx:400 | inserting adds exactly one alert and loses none |
| AlertsFeed.InsertOrdered | src/pages/AlertsMap.jsx:400 | inserting into a list sorted by (severity desc, expiry asc) keeps it sorted |
| AlertsFeed.SortAlerts | src/pages/AlertsMap.jsx:400 | sorting is a permutation of the input |
| AlertsFeed.SortOrdered | src/pages/AlertsMap.jsx:400 | the sorted list is ordered by severity descending, then expiry ascending (a missing expiry counts as 0) |
| AlertsFeed.SortStable | src/pages/AlertsMap.jsx:400 | the sort is stable, as JavaScript's `Array.prototype.sort` is: for every (severity, expiry) key, the alerts with that key appear in the sorted list in the same order as in the input |
| AlertsFeed.InsertTied | src/pages/AlertsMap.jsx:400 | inserting an alert into an ordered list places it after every alert already there with the same key |
| AlertsFeed.Filtered | src/pages/AlertsMap.jsx:385-402 | the feed never shows more than 120 alerts |
| AlertsFeed.FilteredProperties | src/pages/AlertsMap.jsx:385-402 | the feed shows at most 120 alerts; each passes every filter with the trimmed, lower-cased query; they are sorted and drawn from the input; with 120 or fewer passing, all are shown |
| AlertsFeed.FilteredTakesFirst | src/pages/AlertsMap.jsx:385-402 | the feed shows min(passing, 120) alerts, and no passing alert left out comes before a shown one in the (severity desc, expiry asc) order |
| AlertsFeed.PrefixComesFirst | src/pages/AlertsMap.jsx:400-401 | in an ordered list no element after a prefix comes before an element of the prefix |
| AlertsFeed.CountByTag | src/pages/AlertsMap.jsx:416-420 | the counts cover the five known tags plus every tag that occurs, and each is the number of alerts with that tag |
| AlertsFeed.CountAbsent | src/pages/AlertsMap.jsx:417 | a tag no alert carries counts 0 |
| AlertsFeed.SumCountsSnoc | src/pages/AlertsMap.jsx:418 | one more alert adds one to the total count exactly when its tag is counted |
| AlertsFeed.CountsSumToLength | src/pages/AlertsMap.jsx:416-420 | when every tag is counted, the counts add up to the number of alerts |
| AlertsFeed.ZeroCounts | src/pages/AlertsMap.jsx:417 | with no alerts every count is 0 |
| RoutePlanner.Geometries | src/pages/RoutePlanner.jsx:340-342 | the geometries scanned are those of the document's features, in order |
| RoutePlanner.ScanParts | src/pages/RoutePlanner.jsx:334-339 | each geometry contributes its LineString or MultiLineString positions, and nothing else |
| RoutePlanner.RouteToBbox | src/pages/RoutePlanner.jsx:322-345 | no document gives no box; a feature with a null geometry throws the runtime's TypeError; otherwise the box is the extent of all the line positions, or null when there are none |
| RoutePlanner.ScanPrefixStep | src/pages/RoutePlanner.jsx:341-342 | scanning one more feature extends the running box by that feature's positions |
| RoutePlanner.RouteBoxBounds | src/pages/RoutePlanner.jsx:322-345 | the route box encloses every scanned position and each of its sides is attained |
| RoutePlanner.RouteAnswerScansLineOnly | src/pages/RoutePlanner.jsx:322-345 | for a routing answer only the route line is scanned, since the start and destination points are not lines |
| RoutePlanner.LineDistanceKm | src/pages/RoutePlanner.jsx:55-72 | the loop sums the distance between consecutive positions over the LineString features of a collection, or of a single LineString feature |
| RoutePlanner.LineLengthNonNegative | src/pages/RoutePlanner.jsx:66-70 | with a non-negative distance a line's length is non-negative |
| RoutePlanner.TotalLength | src/pages/RoutePlanner.jsx:65-71 | lines with fewer than two positions add nothing, so the total is 0 |
| RoutePlanner.TotalLengthNonNegative | src/pages/RoutePlanner.jsx:65-71 | the total over all lines is non-negative |
| RoutePlanner.FallbackLength | src/pages/RoutePlanner.jsx:66-70 | the straight fallback line measures exactly the distance from start to destination |
| RoutePlanner.EtaHours | src/pages/RoutePlanner.jsx:348-351 | the ETA times the speed in km/h (1.852 per knot, at least 10⁻⁶) is the distance, and it is non-negative for a non-negative distance |
| RoutePlanner.Swap | src/pages/RoutePlanner.jsx:353-356 | swapping exchanges start and destination |
| RoutePlanner.SwapTwice | src/pages/RoutePlanner.jsx:353-356 | swapping twice restores both points |
| IceFrames.SpeedFor | src/hooks/useIceFrames.js:48-51 | speed is clamped to [0.1, 12]; a missing or zero fps means 1 |
| IceFrames.SpeedForIdempotent | src/hooks/useIceFrames.js:50 | clamping an already clamped speed changes nothing |
| IceFrames.CenterIndex | src/hooks/useIceFrames.js:31 | the first index after a load is the middle frame, or 0 with no frames |
| IceFrames.JsRem | src/hooks/useIceFrames.js:77 | the remainder truncates toward zero like JavaScript's `%`, so it keeps the sign of the dividend |
| IceFrames.Advance | src/hooks/useIceFrames.js:74-78 | advancing steps to the next frame and wraps from the last to the first; with no frames it gives 0 |
| IceFrames.AdvanceTimesWraps | src/hooks/useIceFrames.js:74-78 | k advances move k frames forward modulo the frame count, and a full cycle returns to the same frame |
| IceFrames.TickStep | src/hooks/useIceFrames.js:59-80 | a tick does nothing unless playing with frames; the first tick only records the time; afterwards the index advances, and the time is recorded, exactly when a frame period (1000 / speed ms) has elapsed |
| IceFrames.FirstTickWaits | src/hooks/useIceFrames.js:66-73 | the first tick after (re)starting never advances |
| IceFrames.FrameAt | src/hooks/useIceFrames.js:46 | the current time is the frame at the index when that frame exists and is non-empty, else null |
| IceFrames.LoadedShowsMiddle | src/hooks/useIceFrames.js:28-46 | right after a load the current time is the middle frame |
| IceFrames.Player.constructor | src/hooks/useIceFrames.js:6-14 | the initial state: no frames, loading, no error, index 0, paused, speed 1 |
| IceFrames.Player.CurrentTime | src/hooks/useIceFrames.js:46 | the current time, when present, is one of the frames, and it is the indexed frame whenever that is non-empty |
| IceFrames.Player.Restart | src/hooks/useIceFrames.js:58-94 | the playback effect resets the tick clock exactly when `playing` or the frame count changed |
| IceFrames.Player.BeginLoad | src/hooks/useIceFrames.js:19-20 | a load sets loading and clears the error, leaving the rest of the state alone |
| IceFrames.Player.OnLoaded | src/hooks/useIceFrames.js:26-41 | a successful load installs the frames (none when absent), centres the index and clears loading |
| IceFrames.Player.OnLoadError | src/hooks/useIceFrames.js:33-41 | a failed load records the message, or "Failed to load frames" when it is empty, and empties the frames with index 0 |
| IceFrames.Player.SetSpeed | src/hooks/useIceFrames.js:48-51 | only the speed changes, to the clamped value |
| IceFrames.Player.SetPlaying | src/hooks/useIceFrames.js:53-62 | only `playing` changes, and the tick clock resets when it actually changed |
| IceFrames.Player.Play | src/hooks/useIceFrames.js:53 | afterwards the player is playing, with frames, index, speed, loading state and error unchanged; the tick clock resets when it was paused |
| IceFrames.Player.Pause | src/hooks/useIceFrames.js:54 | afterwards the player is paused, with frames, index, speed, loading state and error unchanged; the tick clock resets when it was playing |
| IceFrames.Player.Toggle | src/hooks/useIceFrames.js:55 | `playing` flips and the tick clock resets; frames, index, speed, loading state and error are unchanged |
| IceFrames.Player.SetIndex | src/hooks/useIceFrames.js:100 | only the index changes, to the given value |
| IceFrames.Player.Tick | src/hooks/useIceFrames.js:64-80 | one animation frame updates the index and clock as `TickStep` says and keeps an in-range index in range |
| Numeric.SumBounds | ml/train_and_export.py:156 | a sum of n values in [lo, hi] lies in [n·lo, n·hi] |
| Numeric.Mean | ml/train_and_export.py:156 | the mean times the count is the sum |
| Numeric.MeanBounds | ml/train_and_export.py:156 | a mean of values in [lo, hi] lies in [lo, hi] |
| Numeric.Finite | ml/train_and_export.py:152-156 | dropping the NaNs never lengthens the data |
| Numeric.FiniteMembers | ml/train_and_export.py:152-156 | some value survives exactly when some cell is finite, and every survivor is one of the cells |
| Numeric.FiniteBounded | ml/train_and_export.py:156 | bounds on the finite cells hold for every survivor |
| Ar1.StepValue | ml/model.py:78-80 | one step maps a finite x to α·x + β and keeps NaN as NaN |
| Ar1.StepField | ml/model.py:78-80 | a field step keeps the shape and the NaN mask and updates each finite cell |
| Ar1.Iterate | ml/model.py:97-99 | with α = 1 and β = 0 any number of steps leaves the field unchanged |
| Ar1.IterateSplit | ml/model.py:97-99 | a steps followed by b steps is a + b steps |
| Ar1.IterateKeepsMask | ml/model.py:97-99 | any number of steps keeps the shape and the NaN mask |
| Ar1.FixedPointStays | ml/model.py:78-80 | a constant field at the fixed point of α·x + β stays put |
| Ar1.Forecast | ml/model.py:95-99 | the k-th output is the initial field after k + 1 steps; a non-positive step count gives nothing |
| Ar1.ForecastArray | ml/model.py:82-100 | no steps makes `np.stack` fail; otherwise there are exactly `steps` forecasts, the k-th after k + 1 steps |
| Ar1.ForecastSst | ml/train_and_export.py:65-76 | there are `steps` fields, the k-th after k + 1 steps, each one step on from the previous |
| IceLookup.ClassifyThickness | ml/model.py:180-200 | thickness maps to 0 / 10 / 40 / 70 / 95 on exactly the bands (≤0 or NaN) / (0,10) / [10,30) / [30,70) / ≥70 cm |
| IceLookup.ClassifyMonotone | ml/model.py:195-198 | thicker ice never gets a lower type |
| IceLookup.AssignBand | ml/model.py:195-198 | one masked assignment writes the band's label into exactly the cells in the band and leaves the others unchanged |
| IceLookup.ClassifyFromThickness | ml/model.py:180-200 | the four masked passes give each cell its classified type |
| IceLookup.MinOf | ml/model.py:156 | the minimum is one of the values and at most each of them |
| IceLookup.MaxOf | ml/model.py:157 | the maximum is one of the values and at least each of them |
| IceLookup.KMinAtMostKMax | ml/model.py:156-157 | the floored lower edge is at or below the ceiled upper edge |
| IceLookup.Selected | ml/model.py:168 | a bin selects exactly the samples whose SST falls in it |
| IceLookup.SelectedMultiplicity | ml/model.py:168 | a sample in the bin is selected as often as it occurs, one outside it never |
| IceLookup.SelectedAppend | ml/model.py:168 | selecting from a concatenation concatenates the selections, so sample order is kept |
| IceLookup.CarryForward | ml/model.py:165-176 | the table has one entry per bin |
| IceLookup.CarryForwardAt | ml/model.py:170-176 | an entry is its bin's means when the bin is non-empty, else the previous entry, else (0, 0) |
| IceLookup.CarryForwardLastFilled | ml/model.py:165-176 | every entry is the means of the last non-empty bin at or before it, or (0, 0) when there is none |
| IceLookup.BinValue | ml/model.py:167-176 | one loop iteration computes that entry and reports whether the bin had data |
| IceLookup.FillTables | ml/model.py:162-176 | the cover and thickness tables are the carried-forward bin means |
| IceLookup.FromInitial | ml/model.py:143-178 | no finite training sample raises "No valid training points for SST→ice mapping"; otherwise the lookup is the learned edges and tables |
| IceLookup.Learned | ml/model.py:156-176 | the lookup has the computed edges and one cover and one thickness row per bin |
| IceLookup.EdgeAt | ml/model.py:156-159 | edge i is (⌊s_min / w⌋ + i)·w |
| IceLookup.EdgesIncrease | ml/model.py:159 | the edges strictly increase |
| IceLookup.SampleBetweenEdges | ml/model.py:156-159 | every training SST lies between the first and the last edge |
| IceLookup.CorrectedBinsPartition | ml/model.py:156-176 | with the last bin closed at the top, every training sample falls into exactly one bin |
| IceLookup.TopSampleLostAsWritten | ml/model.py:157-168 | as written, the warmest sample, when it is a whole multiple of the bin width, falls into no bin |
| IceLookup.OpenTopEdge | ml/model.py:157-159 | as written, the last edge is ⌈s_max / w⌉·w |
| IceLookup.LastEdgeInNoBin | ml/model.py:167-168 | with half-open bins over increasing edges the last edge lies in no bin |
| IceLookup.SingleEdgeAsWritten | ml/model.py:156-160 | as written, samples all at 0 °C give zero bins, while the corrected binning gives one |
| IceLookup.LearnedBounds | ml/model.py:165-176 | the learned cover and thickness stay within the training data's range when 0 is inside that range |
| IceLookup.BinMeansBounds | ml/model.py:171-172 | a bin's means stay within the range of its samples |
| IceLookup.CountAtMostSorted | ml/model.py:210 | `digitize` on increasing edges counts the edges at or below x, which is i + 1 when x lies between edge i and edge i + 1 |
| IceLookup.BinIndex | ml/model.py:210-211 | the chosen row is always a valid table row |
| IceLookup.LearnedSorted | ml/model.py:156-178 | a learned lookup has increasing edges and one row per bin, at least one |
| IceLookup.BinIndexSorted | ml/model.py:210-211 | below the first edge the row is the first; at or above the last edge it is the last; inside bin i it is i |
| IceLookup.ApplyToDa | ml/model.py:202-236 | each output cell is the chosen row's cover, thickness and classified type, and all three are NaN where the SST is not finite; an empty table raises numpy's index error |
| IceExport.SnapType | ml/model.py:342-352 | values snap to the legend 0 / 10 / 40 / 70 / 95 on exactly the bands below 5, [5,25), [25,55), [55,85) and ≥ 85 |
| IceExport.SnapTypeFixesLegend | ml/model.py:342-352 | a legend value snaps to itself |
| IceExport.CellValue | ml/model.py:333-352 | a cell is exported exactly when finite and above the land threshold, with its value snapped for `ice_type` only |
| IceExport.ZeroCellKept | ml/model.py:335-339 | with the default negative threshold a 0 % cell is kept |
| IceExport.CellRing | ml/model.py:355-361 | the polygon is a closed five-point ring from corner (i, j) to corner (i+1, j+1) |
| IceExport.CellAtGood | ml/model.py:333-372 | an exported cell carries its frame's time, the product, its step and a kept value |
| IceExport.FlattenGood | ml/model.py:328-332 | collecting good cells row by row keeps them good |
| IceExport.RowOutGood | ml/model.py:332-379 | every cell a row exports is good |
| IceExport.FrameOutGood | ml/model.py:331-379 | every cell a frame exports is good |
| IceExport.AllCellsGood | ml/model.py:328-379 | every exported cell is good |
| IceExport.Numbered | ml/model.py:363-379 | numbering keeps one feature per cell |
| IceExport.NumberedIds | ml/model.py:363-379 | the k-th feature has id k and the k-th cell's properties and ring |
| IceExport.NumberedSnoc | ml/model.py:363-379 | appending a cell appends a feature whose id is the count so far |
| IceExport.EmitCell | ml/model.py:333-379 | one cell appends its feature with the next id, or nothing when skipped |
| IceExport.EmitRow | ml/model.py:332-379 | a row appends its cells' features with consecutive ids |
| IceExport.EmitFrame | ml/model.py:329-379 | a frame appends its rows' features with consecutive ids |
| IceExport.DaToGeojson | ml/model.py:281-381 | the errors for a missing time dimension, a times/frames length mismatch, no frames and a zero stride; a negative stride gives no features, except on a 0 × 0 grid, where `range` yields `[0]` for both axes and reading `frame[0, 0]` raises numpy's index error; otherwise the features are every kept cell of every frame, numbered from 0 |
| TrainExport.IceFrac | ml/train_and_export.py:95 | the ice fraction is clip(−sst / 2, 0, 1): 0 at or above 0 °C, 1 at or below −2 °C, linear between, NaN for NaN |
| TrainExport.TypeOfThickness | ml/train_and_export.py:101-105 | the type is 0 / 10 / 40 / 70 / 95 on exactly the thickness bands (≤0.05 or NaN) / (0.05,0.30] / (0.30,1.00] / (1.00,1.80] / >1.80 m |
| TrainExport.TypeMonotone | ml/train_and_export.py:101-105 | thicker ice never gets a lower type |
| TrainExport.IceCell | ml/train_and_export.py:95-110 | in the lake a finite SST gives three finite fields; the type is NaN exactly outside the lake |
| TrainExport.SstToIceFields | ml/train_and_export.py:82-112 | the three output fields have the input's size and each cell is the per-cell mapping, masked by the lake mask when one is given |
| TrainExport.IceCellBounds | ml/train_and_export.py:95-105 | for water, cover lies in [0, 100] %, thickness in [0, 3] m and the type is a legend value |
| TrainExport.IceCellExtremes | ml/train_and_export.py:95-105 | SST ≥ 0 gives no ice; SST ≤ −2 gives 100 %, 3 m, type 95 |
| TrainExport.IceCellMonotone | ml/train_and_export.py:95-105 | colder water never gets less cover or a lower type |
| TrainExport.IceCellMasking | ml/train_and_export.py:101-110 | outside the lake mask all three fields are NaN; a NaN SST gives NaN cover and thickness but type 0, as `np.where` leaves it |
| TrainExport.RectRing | ml/train_and_export.py:166-172 | the block polygon is the closed axis-aligned rectangle from (lon_min, lat_min) to (lon_max, lat_max) |
| TrainExport.BlockAt | ml/train_and_export.py:147-186 | a block yields at most one feature |
| TrainExport.NumberedBlocks | ml/train_and_export.py:174-186 | numbering keeps one feature per block |
| TrainExport.NumberedBlocksIds | ml/train_and_export.py:174-186 | the k-th feature has id k, the time string and the k-th block's value and ring |
| TrainExport.NumberedBlocksSnoc | ml/train_and_export.py:174-186 | appending a block appends a feature whose id is the count so far |
| TrainExport.CellInOneBlock | ml/train_and_export.py:146-151 | every native cell lies in exactly one coarse block |
| TrainExport.AxisBlockOf | ml/train_and_export.py:146-149 | along one axis every index lies in exactly one stride window |
| TrainExport.BlockValueBounds | ml/train_and_export.py:151-158 | an exported block's value lies within the field's finite range and its magnitude is at least `min_abs` |
| TrainExport.BlockCellsBounded | ml/train_and_export.py:151 | the cells of a block keep the field's bounds |
| TrainExport.BlockRingEncloses | ml/train_and_export.py:160-172 | for increasing coordinates, the block polygon spans from its first to its last cell centre (widened by half a step) |
| TrainExport.FlattenMembers | ml/train_and_export.py:146-148 | every collected block comes from one of the bands |
| TrainExport.EmitBlock | ml/train_and_export.py:147-186 | one block appends its feature with the next id, or nothing when all NaN or too small |
| TrainExport.EmitBand | ml/train_and_export.py:148-186 | one band appends its blocks' features with consecutive ids |
| TrainExport.FieldToPolygons | ml/train_and_export.py:119-188 | fewer than two latitudes or longitudes raise numpy's index error; a zero stride raises; a negative stride gives nothing; otherwise the features are every kept block, numbered from 0 |
| Seqs.Range | ml/train_and_export.py:146-148 | `range(lo, hi, step)` starts at lo, steps by `step`, stays below hi, and is empty exactly when lo ≥ hi |
| Seqs.RangeDown | ml/model.py:331-332 | `range(lo, hi, step)` for a negative step starts at lo, steps down by `step`, stays above hi, and is empty exactly when lo ≤ hi |
| Seqs.NegativeStrideRange | ml/model.py:331-332 | with a negative stride, `range(0, n - 1, stride)` is empty for n > 0 and is `[0]` for n = 0 |
| Seqs.RangeBlockOf | ml/train_and_export.py:146-149 | every index in [lo, hi) lies in the window of some range element |
| Seqs.RangeBlocksDisjoint | ml/train_and_export.py:146-149 | no index lies in two windows |

## Left out

- `toLowerCase` and `trim` are modelled for ASCII letters and ASCII white space only. Unicode case mapping and Unicode spaces are not modelled.
- Text.NumberOf: `Number` is modelled for decimal forms only; exponents, hexadecimal, `Infinity` and similar forms are read as NaN. Its own contract covers blank text; the decimal value, the sign and the rejection of other characters are the lemmas `NumberOfNat`, `NumberOfNegatedNat` and `NumberOfRejects`.
- `new Date(expires)` is modelled as an integer time that is already parsed; invalid dates are not modelled.
- Object keys that collide with `Object.prototype` names are not modelled.
- The `anon-${Math.random()}` id of an alert without an id is modelled as a key unique to the alert's position. The model assumes no real id equals such a string.
- All arithmetic is exact real arithmetic. Float rounding, `float32` casts and numpy's `arange` rounding of edges are not modelled.
- AStar.Heuristic: `Math.sqrt` is modelled as an integer square root at scale 2²⁰, which lies within 2⁻²⁰ below the exact root. This affects the f-scores, the order of near-ties, and possibly which valid path is returned.
- AStar.FindPathAStar: optimality is not claimed. The source's heuristic (a Euclidean distance) may overestimate the true cost, because diagonal steps cost 1.414 < √2 (lemma `DiagonalBound`). The model proves validity, simplicity, termination and completeness (null exactly when no water route exists) instead.
- AStar.FindPathAStar: start = end returns the single start step even when that cell is land; this is what the source does.
- `loadSampleJSON`, `fetch`, the promise machinery and `await` are modelled as a parameter: the ML ice document, or none. The other `API` methods (`listFrames`, `legend`, `narrative`) and the `vessel` argument of `bestRoute`, which it does not use, are not part of this model.
- `console` logging is not part of this model.
- `distKm` (the haversine distance) is a parameter of `LineDistanceKm`, because Dafny has no trigonometry. Where a lemma needs its non-negativity, it states it as a precondition.
- React state updates and effects are modelled as the `Player` methods. The `alive` flag of a cancelled load, `requestAnimationFrame` and its cancellation are not modelled. `Tick` stands for one animation frame.
- The `kind`/`bbox` URL parsing is modelled; the window location itself is not.
- What the page does with the parsed bbox (fitting the map to it), map rendering, layers and the rest of the UI are not part of this model.
- `_lat_lon_2d` is not modelled: the exporter receives its 2-D latitude and longitude arrays directly.
- Fitting the AR(1) model (`fit`, `np.linalg.lstsq`) and the `main` drivers are not part of this model; α and β are parameters.
- IceLookup.FromInitial: the model requires a bin width > 0, which the source assumes without checking. `FromInitial` uses the corrected, top-closed last bin; what the code does as written is stated by `TopSampleLostAsWritten` and `SingleEdgeAsWritten`.
- TrainExport.FieldToPolygons: the `assert ny == lat_1d.size and nx == lon_1d.size` is modelled as a precondition.
- NaN stands for every non-finite value in the ML code. ±∞ are not distinguished from NaN.
- RouteService.MessageOf: an exception with an empty message would give "Routing error."; every error the model raises has a non-empty message.

## Findings

| source | as written | input that shows it | evidently intended | confidence | as-written member | corrected member |
|---|---|---|---|---|---|---|
| src/pages/AlertsMap.jsx:21-27 | `walk` returns as soon as a geometry has no `coordinates`, before it reaches the `GeometryCollection` branch; a standard GeometryCollection has only `geometries`, so it contributes no point, its box is null and `inGL` keeps it wherever it is | a feature whose geometry is a GeometryCollection holding one Point far from the Great Lakes | collections are walked into, and their members' positions make up the box | not executed | AlertsMap.CollectionBoxLostAsWritten | AlertsMap.FeatureBBox |
| ml/model.py:156-168 | the bins are half-open `[lo, hi)` up to `s_max = ceil(max / w)·w`, so a sample at a whole multiple of the bin width that is the warmest one falls into no bin; with all samples at the same multiple there are no bins at all | SSTs [−1.0, 0.0] with w = 0.25 leave 0.0 in no bin; SSTs [0.0] give zero bins | every training sample counts in exactly one bin (the last bin closed at the top) | not executed | IceLookup.TopSampleLostAsWritten | IceLookup.CorrectedBinsPartition |
