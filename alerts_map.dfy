/** Alert normalisation and geometry helpers of src/pages/AlertsMap.jsx:
    severity ranking and colour, event tagging, the recursive bounding box
    of a GeoJSON geometry and the Great Lakes overlap test. */
module AlertsMap {
  import opened Wrappers
  import opened GeoJson
  import opened Text
  import opened Extents
  import opened Seqs

  // ---------------------------------------------------------------------
  // Severity and tags
  // ---------------------------------------------------------------------

  /** `sevRank`: extreme, severe, moderate and minor, in any letter case,
      rank 4, 3, 2 and 1; anything else, a missing severity included,
      ranks 0. */
  function SevRank(sev: Option<string>): (r: nat)
    ensures r <= 4
    ensures r == 4 <==> Lower(sev.GetOr("")) == "extreme"
    ensures r == 3 <==> Lower(sev.GetOr("")) == "severe"
    ensures r == 2 <==> Lower(sev.GetOr("")) == "moderate"
    ensures r == 1 <==> Lower(sev.GetOr("")) == "minor"
  {
    var s := Lower(sev.GetOr(""));
    if s == "extreme" then 4
    else if s == "severe" then 3
    else if s == "moderate" then 2
    else if s == "minor" then 1
    else 0
  }

  /** Ranking ignores letter case. */
  lemma SevRankIgnoresCase(s: string)
    ensures SevRank(Some(Lower(s))) == SevRank(Some(s))
  {
    LowerIdempotent(s);
  }

  lemma SevRankExamples()
    ensures SevRank(Some("Severe")) == 3
    ensures SevRank(None) == 0
  {
    assert Lower("Severe") == "severe";
  }

  const Red: string := "#ef4444"
  const Orange: string := "#f97316"
  const Amber: string := "#f59e0b"
  const Yellow: string := "#eab308"
  const Grey: string := "#64748b"

  /** `colorForSev`. */
  function ColorForSev(r: int): (c: string)
    ensures c in {Red, Orange, Amber, Yellow, Grey}
    ensures c == Red <==> r >= 4
    ensures c == Orange <==> r == 3
    ensures c == Amber <==> r == 2
    ensures c == Yellow <==> r == 1
    ensures c == Grey <==> r <= 0
  {
    if r >= 4 then Red
    else if r == 3 then Orange
    else if r == 2 then Amber
    else if r == 1 then Yellow
    else Grey
  }

  /** Colour of a ranked severity: red, orange, amber and yellow exactly
      for "extreme", "severe", "moderate" and "minor", grey exactly for
      unknown severities, a distinct colour for each rank. */
  lemma SeverityColours(sev: Option<string>)
    ensures ColorForSev(SevRank(sev)) == Red <==> Lower(sev.GetOr("")) == "extreme"
    ensures ColorForSev(SevRank(sev)) == Orange <==> Lower(sev.GetOr("")) == "severe"
    ensures ColorForSev(SevRank(sev)) == Amber <==> Lower(sev.GetOr("")) == "moderate"
    ensures ColorForSev(SevRank(sev)) == Yellow <==> Lower(sev.GetOr("")) == "minor"
    ensures ColorForSev(SevRank(sev)) == Grey <==> SevRank(sev) == 0
    ensures forall r1, r2 :: 0 <= r1 <= 4 && 0 <= r2 <= 4 && r1 != r2 ==> ColorForSev(r1) != ColorForSev(r2)
  {
  }

  predicate MarineWords(e: string) {
    Contains(e, "marine") || Contains(e, "gale") || Contains(e, "small craft") || Contains(e, "spray")
  }

  predicate WindWords(e: string) {
    Contains(e, "wind") || Contains(e, "storm")
  }

  predicate WinterWords(e: string) {
    Contains(e, "snow") || Contains(e, "blizzard") || Contains(e, "winter") ||
    Contains(e, "ice") || Contains(e, "freez") || Contains(e, "cold")
  }

  /** `tagFromEvent`: keyword groups tested in the order marine, flood,
      wind, winter; the first group with a keyword in the lower-cased event
      decides. */
  function TagFromEvent(ev: Option<string>): (tag: string)
    ensures tag in {"marine", "flood", "wind", "winter", "other"}
    ensures tag == "marine" <==> MarineWords(Lower(ev.GetOr("")))
    ensures tag == "flood" <==> !MarineWords(Lower(ev.GetOr(""))) && Contains(Lower(ev.GetOr("")), "flood")
    ensures tag == "wind" <==>
              !MarineWords(Lower(ev.GetOr(""))) && !Contains(Lower(ev.GetOr("")), "flood") &&
              WindWords(Lower(ev.GetOr("")))
    ensures tag == "winter" <==>
              !MarineWords(Lower(ev.GetOr(""))) && !Contains(Lower(ev.GetOr("")), "flood") &&
              !WindWords(Lower(ev.GetOr(""))) && WinterWords(Lower(ev.GetOr("")))
    ensures tag == "other" <==>
              !MarineWords(Lower(ev.GetOr(""))) && !Contains(Lower(ev.GetOr("")), "flood") &&
              !WindWords(Lower(ev.GetOr(""))) && !WinterWords(Lower(ev.GetOr("")))
  {
    var e := Lower(ev.GetOr(""));
    if MarineWords(e) then "marine"
    else if Contains(e, "flood") then "flood"
    else if WindWords(e) then "wind"
    else if WinterWords(e) then "winter"
    else "other"
  }

  /** "storm" is tested before "winter": a winter storm warning is tagged
      wind. */
  lemma WinterStormWarningIsWind()
    ensures TagFromEvent(Some("Winter Storm Warning")) == "wind"
  {
    LowerWinterStormWarning();
    WinterStormWords("winter storm warning");
  }

  lemma WinterStormWords(e: string)
    requires e == "winter storm warning"
    ensures WindWords(e) && !MarineWords(e) && !Contains(e, "flood")
  {
    assert e[7..12] == "storm";
    ContainsAt(e, "storm", 7);
    NotMarineOrFlood(e);
  }

  lemma NotMarineOrFlood(e: string)
    requires e == "winter storm warning"
    ensures !MarineWords(e) && !Contains(e, "flood")
  {
    NoPair(e, "marine");
    NoPair(e, "gale");
    NoPair(e, "small craft");
    NoPair(e, "spray");
    NoPair(e, "flood");
  }

  lemma NoPair(e: string, w: string)
    requires e == "winter storm warning"
    requires w in {"marine", "gale", "small craft", "spray", "flood"}
    ensures !Contains(e, w)
  {
    if w == "marine" {
      NoPairMatch(e, w);
    } else if w == "gale" {
      NoPairMatch(e, w);
    } else if w == "small craft" {
      NoPairMatch(e, w);
    } else if w == "spray" {
      NoPairMatch(e, w);
    } else {
      NoPairMatch(e, w);
    }
  }

  lemma LowerWinterStormWarning()
    ensures Lower("Winter Storm Warning") == "winter storm warning"
  {
    var s := "Winter Storm Warning";
    var r := Lower(s);
    assert |r| == 20;
    forall i | 0 <= i < 20
      ensures r[i] == "winter storm warning"[i]
    {
      assert r[i] == LowerChar(s[i]);
    }
  }

  /** A word whose first two letters never occur side by side in `e` is
      not in `e`. */
  lemma NoPairMatch(e: string, w: string)
    requires |w| >= 2
    requires forall i :: 0 <= i < |e| - 1 ==> e[i] != w[0] || e[i + 1] != w[1]
    ensures !Contains(e, w)
  {
    ContainsIff(e, w);
  }

  // ---------------------------------------------------------------------
  // Bounding boxes
  // ---------------------------------------------------------------------

  /** Every coordinate `walk` is meant to visit, in visiting order;
      a GeometryCollection contributes the coordinates of its members. */
  function Visited(g: Geometry): seq<Position> {
    match g
    case Point(p) => [p]
    case MultiPoint(ps) => ps
    case LineString(ps) => ps
    case MultiLineString(ls) => Flatten(ls)
    case Polygon(rings) => Flatten(rings)
    case MultiPolygon(polys) => Flatten(seq(|polys|, i requires 0 <= i < |polys| => Flatten(polys[i])))
    case GeometryCollection(gs) => Flatten(seq(|gs|, i requires 0 <= i < |gs| => Visited(gs[i])))
  }

  /** The coordinates `walk` visits as written: it returns before the
      GeometryCollection branch whenever `coordinates` is absent, which it
      is for every GeometryCollection, so members are never visited. */
  function VisitedAsWritten(g: Geometry): (ps: seq<Position>)
    ensures ps == [] || ps == Visited(g)
    ensures !g.GeometryCollection? ==> ps == Visited(g)
  {
    match g
    case GeometryCollection(_) => []
    case _ => Visited(g)
  }

  /** `push` over a coordinate list. */
  method PushAll(ps: seq<Position>, b: Option<Extent>) returns (b': Option<Extent>)
    ensures b' == Spread(b, ps)
  {
    b' := b;
    for i := 0 to |ps|
      invariant b' == Spread(b, ps[..i])
    {
      assert ps[..i + 1][..i] == ps[..i];
      b' := Some(Include(b', ps[i]));
    }
    assert ps[..|ps|] == ps;
  }

  /** `push` over a list of rings or lines. */
  method PushRings(rs: seq<seq<Position>>, b: Option<Extent>) returns (b': Option<Extent>)
    ensures b' == Spread(b, Flatten(rs))
  {
    b' := b;
    for i := 0 to |rs|
      invariant b' == Spread(b, Flatten(rs[..i]))
    {
      b' := PushAll(rs[i], b');
      FlattenSnoc(rs, i);
      SpreadAppend(b, Flatten(rs[..i]), rs[i]);
    }
    assert rs[..|rs|] == rs;
  }

  /** `walk`, recursing into the members of a GeometryCollection. */
  method Walk(g: Geometry, b: Option<Extent>) returns (b': Option<Extent>)
    ensures b' == Spread(b, Visited(g))
    decreases g
  {
    match g {
      case Point(p) =>
        assert [p][..0] == [];
        b' := Some(Include(b, p));
      case MultiPoint(ps) =>
        b' := PushAll(ps, b);
      case LineString(ps) =>
        b' := PushAll(ps, b);
      case MultiLineString(ls) =>
        b' := PushRings(ls, b);
      case Polygon(rings) =>
        b' := PushRings(rings, b);
      case MultiPolygon(polys) =>
        var parts := seq(|polys|, i requires 0 <= i < |polys| => Flatten(polys[i]));
        b' := b;
        for i := 0 to |polys|
          invariant b' == Spread(b, Flatten(parts[..i]))
        {
          b' := PushRings(polys[i], b');
          FlattenSnoc(parts, i);
          SpreadAppend(b, Flatten(parts[..i]), parts[i]);
        }
        assert parts[..|polys|] == parts;
      case GeometryCollection(gs) =>
        var parts := seq(|gs|, i requires 0 <= i < |gs| => Visited(gs[i]));
        b' := b;
        for i := 0 to |gs|
          invariant b' == Spread(b, Flatten(parts[..i]))
        {
          b' := Walk(gs[i], b');
          FlattenSnoc(parts, i);
          SpreadAppend(b, Flatten(parts[..i]), parts[i]);
        }
        assert parts[..|gs|] == parts;
    }
  }

  /** `featureBBox`: null for a null geometry or when no coordinate is
      visited; otherwise a box that encloses every visited coordinate and
      whose sides are attained. */
  method FeatureBBox(geom: Option<Geometry>) returns (bb: Option<Extent>)
    ensures bb.Some? <==> geom.Some? && Visited(geom.value) != []
    ensures bb.Some? ==> bb == Spread(None, Visited(geom.value))
    ensures bb.Some? ==> forall p :: p in Visited(geom.value) ==> Encloses(bb.value, p)
  {
    if geom.None? {
      return None;
    }
    bb := Walk(geom.value, None);
    SpreadBounds(Visited(geom.value));
  }

  /** As written, a GeometryCollection has no box at all, so `inGL` keeps
      it wherever its members lie; the intended walk boxes its members. */
  lemma CollectionBoxLostAsWritten(p: Position)
    ensures VisitedAsWritten(GeometryCollection([Point(p)])) == []
    ensures Spread(None, VisitedAsWritten(GeometryCollection([Point(p)]))) == None
    ensures Visited(GeometryCollection([Point(p)])) == [p]
    ensures Spread(None, Visited(GeometryCollection([Point(p)]))) == Some(Extent(p.0, p.1, p.0, p.1))
  {
    var parts := seq(1, i requires 0 <= i < 1 => Visited([Point(p)][i]));
    assert parts == [[p]];
    assert Flatten(parts) == [p] by {
      assert parts[..0] == [];
    }
    assert [p][..0] == [];
  }

  // ---------------------------------------------------------------------
  // Great Lakes filter
  // ---------------------------------------------------------------------

  /** `GL_BOUNDS`. */
  const GreatLakes: Extent := Extent(-93.5, 40.0, -74.0, 49.5)

  /** `inGL`, given the feature's box: a feature without a box is kept; a
      box is kept unless it lies wholly to one side of `GL_BOUNDS`. */
  predicate InGL(bb: Option<Extent>)
    ensures bb.None? ==> InGL(bb)
    ensures bb.Some? ==> forall q :: Encloses(bb.value, q) && Encloses(GreatLakes, q) ==> InGL(bb)
  {
    match bb
    case None => true
    case Some(e) =>
      !(e.maxX < GreatLakes.minX || e.minX > GreatLakes.maxX || e.maxY < GreatLakes.minY || e.minY > GreatLakes.maxY)
  }

  /** The closed-interval overlap test keeps a box exactly when the box and
      `GL_BOUNDS` share a point, touching edges included. */
  lemma InGLIffSharedPoint(e: Extent)
    requires e.minX <= e.maxX && e.minY <= e.maxY
    ensures InGL(Some(e)) <==> exists q :: Encloses(e, q) && Encloses(GreatLakes, q)
  {
    if InGL(Some(e)) {
      var q := (Max(e.minX, GreatLakes.minX), Max(e.minY, GreatLakes.minY));
      assert Encloses(e, q) && Encloses(GreatLakes, q);
    }
  }

  /** A box touching `GL_BOUNDS` only at its western edge is kept. */
  lemma TouchingEdgeKept()
    ensures InGL(Some(Extent(-100.0, 45.0, -93.5, 46.0)))
  {
  }
}
