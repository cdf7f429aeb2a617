/** The static layers of the routing engine (src/data/api.js): the
    hand-drawn land mask `LAND_DATA` and the demo ice polygons `ICE_DATA`,
    used when the generated ice GeoJSON is unavailable. */
module StaticData {
  import opened Wrappers
  import opened GeoJson
  import opened CostGrid

  const LandData: seq<LandFeature> := [
    Feature(Some(Polygon([[(-93.0, 49.0), (-90.0, 49.0), (-89.0, 48.0), (-90.0, 47.0), (-91.0, 47.0), (-92.0, 46.5), (-93.0, 47.0), (-93.0, 49.0)]])),
      LandProps("Minnesota/North Shore")),
    Feature(Some(Polygon([[(-89.0, 47.3), (-88.5, 47.5), (-88.0, 47.3), (-87.8, 47.0), (-88.3, 47.0), (-88.8, 47.2), (-89.0, 47.3)]])),
      LandProps("Keweenaw Peninsula")),
    Feature(Some(Polygon([[(-90.0, 47.0), (-87.0, 47.0), (-87.0, 46.5), (-85.0, 46.2), (-84.8, 45.9), (-84.8, 45.7), (-85.0, 45.5), (-86.5, 45.3), (-87.5, 45.0), (-88.0, 45.3), (-88.5, 45.5), (-90.0, 46.0), (-90.0, 47.0)]])),
      LandProps("Upper Peninsula (West)")),
    Feature(Some(Polygon([[(-84.7, 45.8), (-84.7, 45.0), (-84.0, 44.0), (-83.5, 43.0), (-83.0, 42.0), (-82.5, 41.8), (-82.3, 42.5), (-82.0, 43.5), (-82.5, 44.5), (-83.0, 45.0), (-83.5, 45.5), (-84.0, 45.7), (-84.7, 45.8)]])),
      LandProps("Lower Peninsula (East)")),
    Feature(Some(Polygon([[(-88.5, 45.5), (-88.0, 45.3), (-87.5, 45.0), (-87.0, 44.5), (-86.8, 45.0), (-87.0, 45.2), (-87.5, 44.5), (-87.8, 44.0), (-88.0, 42.5), (-88.5, 43.0), (-88.5, 44.0), (-88.5, 45.5)]])),
      LandProps("Wisconsin/Door Peninsula")),
    Feature(Some(Polygon([[(-83.0, 45.9), (-82.0, 45.8), (-81.8, 45.5), (-82.5, 45.4), (-83.2, 45.7), (-83.0, 45.9)]])),
      LandProps("Manitoulin Island")),
    Feature(Some(Polygon([[(-83.5, 41.8), (-83.0, 41.5), (-82.0, 41.3), (-81.0, 41.4), (-80.0, 41.8), (-80.0, 41.0), (-83.5, 41.0), (-83.5, 41.8)]])),
      LandProps("Land South of Erie")),
    Feature(Some(Polygon([[(-80.0, 42.0), (-79.0, 42.2), (-79.0, 41.0), (-80.0, 41.0), (-80.0, 42.0)]])),
      LandProps("Land S of Erie (East)"))
  ]

  const IceData: seq<IceFeature> := [
    Feature(Some(Polygon([[(-90.6, 48.8), (-89.8, 48.9), (-88.9, 48.8), (-88.4, 48.6), (-88.8, 48.4), (-89.7, 48.3), (-90.4, 48.4), (-90.6, 48.8)]])),
      Some(IceProps(Some(90.0)))),
    Feature(Some(Polygon([[(-87.2, 48.4), (-86.2, 48.5), (-85.4, 48.3), (-85.0, 48.1), (-85.4, 47.9), (-86.1, 47.9), (-86.8, 48.0), (-87.2, 48.4)]])),
      Some(IceProps(Some(70.0)))),
    Feature(Some(Polygon([[(-87.8, 45.9), (-87.2, 46.2), (-86.6, 46.1), (-86.2, 45.9), (-86.3, 45.6), (-86.9, 45.5), (-87.5, 45.6), (-87.8, 45.9)]])),
      Some(IceProps(Some(60.0)))),
    Feature(Some(Polygon([[(-86.4, 44.9), (-85.8, 45.0), (-85.3, 44.7), (-85.1, 44.2), (-85.4, 43.9), (-86.0, 43.9), (-86.4, 44.4), (-86.4, 44.9)]])),
      Some(IceProps(Some(40.0)))),
    Feature(Some(Polygon([[(-84.6, 46.2), (-83.8, 46.4), (-83.1, 46.2), (-82.7, 45.9), (-82.9, 45.7), (-83.6, 45.7), (-84.3, 45.8), (-84.6, 46.2)]])),
      Some(IceProps(Some(50.0)))),
    Feature(Some(Polygon([[(-82.0, 45.3), (-81.4, 45.4), (-80.9, 45.1), (-80.8, 44.7), (-81.1, 44.4), (-81.7, 44.5), (-82.0, 44.9), (-82.0, 45.3)]])),
      Some(IceProps(Some(30.0)))),
    Feature(Some(Polygon([[(-83.4, 42.3), (-82.7, 42.4), (-81.9, 42.3), (-81.6, 42.1), (-81.8, 41.9), (-82.5, 41.9), (-83.2, 42.0), (-83.4, 42.3)]])),
      Some(IceProps(Some(80.0)))),
    Feature(Some(Polygon([[(-81.9, 42.1), (-81.1, 42.2), (-80.4, 42.1), (-80.2, 41.9), (-80.5, 41.7), (-81.3, 41.7), (-81.9, 41.8), (-81.9, 42.1)]])),
      Some(IceProps(Some(20.0))))
  ]

  /** Both static layers are readable by the rasteriser, so building a grid
      from them never raises. */
  lemma StaticDataWellFormed()
    ensures WellFormedLand(LandData)
    ensures WellFormedIce(IceData)
  {
  }
}
