/** Axis-aligned boxes grown point by point, as the bounding-box helpers of
    the alerts page and the route planner compute them. */
module Extents {
  import opened Wrappers
  import opened GeoJson
  import opened Seqs

  /** `[[minx, miny], [maxx, maxy]]`; the all-Infinity start box of the
      sources is `None`. */
  datatype Extent = Extent(minX: real, minY: real, maxX: real, maxY: real)

  function Min(a: real, b: real): real { if a <= b then a else b }
  function Max(a: real, b: real): real { if a >= b then a else b }

  predicate Encloses(e: Extent, p: Position) {
    e.minX <= p.0 <= e.maxX && e.minY <= p.1 <= e.maxY
  }

  /** One `push`: widen the box to take in `p`. */
  function Include(b: Option<Extent>, p: Position): Extent {
    match b
    case None => Extent(p.0, p.1, p.0, p.1)
    case Some(e) => Extent(Min(e.minX, p.0), Min(e.minY, p.1), Max(e.maxX, p.0), Max(e.maxY, p.1))
  }

  /** The box after pushing `ps` in order, starting from `b`. */
  function Spread(b: Option<Extent>, ps: seq<Position>): Option<Extent> {
    if ps == [] then b else Some(Include(Spread(b, ps[..|ps| - 1]), ps[|ps| - 1]))
  }

  lemma {:induction false} SpreadAppend(b: Option<Extent>, xs: seq<Position>, ys: seq<Position>)
    ensures Spread(b, xs + ys) == Spread(Spread(b, xs), ys)
    decreases |ys|
  {
    if ys == [] {
      assert xs + ys == xs;
    } else {
      assert (xs + ys)[..|xs + ys| - 1] == xs + ys[..|ys| - 1];
      SpreadAppend(b, xs, ys[..|ys| - 1]);
    }
  }

  /** The box of a non-empty coordinate list encloses every coordinate,
      and each of its four sides is attained by some coordinate; the box of
      nothing is `None`. */
  lemma {:induction false} SpreadBounds(ps: seq<Position>)
    ensures Spread(None, ps).Some? <==> ps != []
    ensures ps != [] ==>
              var e := Spread(None, ps).value;
              e.minX <= e.maxX && e.minY <= e.maxY &&
              (forall i :: 0 <= i < |ps| ==> Encloses(e, ps[i])) &&
              (exists i :: 0 <= i < |ps| && ps[i].0 == e.minX) &&
              (exists i :: 0 <= i < |ps| && ps[i].1 == e.minY) &&
              (exists i :: 0 <= i < |ps| && ps[i].0 == e.maxX) &&
              (exists i :: 0 <= i < |ps| && ps[i].1 == e.maxY)
    decreases |ps|
  {
    if |ps| > 1 {
      var front := ps[..|ps| - 1];
      SpreadBounds(front);
      var e0 := Spread(None, front).value;
      var e := Spread(None, ps).value;
      forall i | 0 <= i < |ps|
        ensures Encloses(e, ps[i])
      {
        if i < |ps| - 1 {
          assert ps[i] == front[i];
        }
      }
      var n := |ps| - 1;
      if e.minX != ps[n].0 {
        var i :| 0 <= i < |front| && front[i].0 == e0.minX;
        assert ps[i].0 == e.minX;
      }
      if e.minY != ps[n].1 {
        var i :| 0 <= i < |front| && front[i].1 == e0.minY;
        assert ps[i].1 == e.minY;
      }
      if e.maxX != ps[n].0 {
        var i :| 0 <= i < |front| && front[i].0 == e0.maxX;
        assert ps[i].0 == e.maxX;
      }
      if e.maxY != ps[n].1 {
        var i :| 0 <= i < |front| && front[i].1 == e0.maxY;
        assert ps[i].1 == e.maxY;
      }
    } else if |ps| == 1 {
      assert ps[..0] == [];
    }
  }
}
