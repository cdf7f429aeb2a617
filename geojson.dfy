/** The GeoJSON shapes shared by the routing engine, the alerts page and the
    route planner (RFC 7946). A position is `[lon, lat]`; extra dimensions
    are never read by the code modelled here. */
module GeoJson {
  import opened Wrappers

  type Position = (real, real)

  /** A linear ring: closed (first == last) or open; both are accepted. */
  type Ring = seq<Position>

  datatype Geometry =
    | Point(position: Position)
    | MultiPoint(points: seq<Position>)
    | LineString(line: seq<Position>)
    | MultiLineString(lines: seq<seq<Position>>)
    | Polygon(rings: seq<Ring>)
    | MultiPolygon(polygons: seq<seq<Ring>>)
    | GeometryCollection(geometries: seq<Geometry>)

  /** A feature whose `geometry` member may be null. */
  datatype Feature<P> = Feature(geometry: Option<Geometry>, properties: P)
}
