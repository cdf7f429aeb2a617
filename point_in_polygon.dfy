/** Ray-casting point-in-polygon test of the routing engine
    (src/data/api.js, `isPointInPolygon`). */
module PointInPolygon {
  import opened GeoJson

  /** The vertex that precedes vertex `i` cyclically: the loop pairs vertex
      `i` with `j`, starting from `j = n - 1`. */
  function Prev(n: nat, i: nat): (j: nat)
    requires i < n
    ensures j < n
    ensures i == 0 ==> j == n - 1
    ensures i > 0 ==> j == i - 1
  {
    if i == 0 then n - 1 else i - 1
  }

  /** Edge (a, b) is counted when its endpoints lie strictly on opposite
      sides of the horizontal line through `p` and the crossing lies to the
      right of `p`. The first conjunct guards the division: it implies
      `a.1 != b.1`. */
  predicate Crosses(p: Position, a: Position, b: Position) {
    (a.1 > p.1) != (b.1 > p.1) &&
    p.0 < (b.0 - a.0) * (p.1 - a.1) / (b.1 - a.1) + a.0
  }

  /** Number of counted edges among the first `k` edges of the ring,
      edge `i` joining `ring[i]` and `ring[Prev(|ring|, i)]`. */
  function Crossings(p: Position, ring: Ring, k: nat): (c: nat)
    requires k <= |ring|
    ensures c <= k
  {
    if k == 0 then 0
    else Crossings(p, ring, k - 1) + (if Crosses(p, ring[k - 1], ring[Prev(|ring|, k - 1)]) then 1 else 0)
  }

  /** The point is inside when an odd number of edges is crossed. */
  predicate Inside(p: Position, ring: Ring) {
    Crossings(p, ring, |ring|) % 2 == 1
  }

  /** The loop of the source: a flag toggled once per crossed edge. */
  method IsPointInPolygon(p: Position, ring: Ring) returns (inside: bool)
    ensures inside == Inside(p, ring)
  {
    inside := false;
    var n := |ring|;
    if n == 0 {
      return;
    }
    var i, j := 0, n - 1;
    while i < n
      invariant 0 <= i <= n
      invariant i < n ==> j == Prev(n, i)
      invariant inside == (Crossings(p, ring, i) % 2 == 1)
    {
      var intersect := Crosses(p, ring[i], ring[j]);
      if intersect {
        inside := !inside;
      }
      j, i := i, i + 1;
    }
  }

  /** A horizontal edge is never counted, so it never reaches the division. */
  lemma HorizontalEdgeNeverCrosses(p: Position, a: Position, b: Position)
    requires a.1 == b.1
    ensures !Crosses(p, a, b)
  {
  }

  /** The empty ring contains nothing. */
  lemma EmptyRingContainsNothing(p: Position)
    ensures !Inside(p, [])
  {
  }

  /** Closing a ring (repeating its first vertex at the end, as GeoJSON
      rings do) does not change the answer: the added edge is horizontal,
      and the closing edge of the open ring reappears as the last edge. */
  lemma {:induction false} ClosingRingPreservesInside(p: Position, ring: Ring)
    requires |ring| > 0
    ensures Inside(p, ring + [ring[0]]) == Inside(p, ring)
  {
    var n := |ring|;
    var closed := ring + [ring[0]];
    assert !Crosses(p, closed[0], closed[Prev(n + 1, 0)]);
    ShiftedCrossings(p, ring, closed, n);
    assert closed[n] == ring[0] && closed[n - 1] == ring[n - 1];
    assert Crossings(p, closed, n + 1) == Crossings(p, closed, n) +
      (if Crosses(p, ring[0], ring[Prev(n, 0)]) then 1 else 0);
  }

  /** Helper: on the closed ring, edges 0..k-1 (k <= n) cross as often as
      edges 1..k-1 of the open ring plus the closing edge 0, which is
      horizontal in the closed ring; i.e. the counts differ exactly by the
      contribution of the open ring's edge 0. */
  lemma {:induction false} ShiftedCrossings(p: Position, ring: Ring, closed: Ring, k: nat)
    requires 0 < |ring| && closed == ring + [ring[0]]
    requires 1 <= k <= |ring|
    ensures Crossings(p, closed, k) + (if Crosses(p, ring[0], ring[Prev(|ring|, 0)]) then 1 else 0)
         == Crossings(p, ring, k)
  {
    var n := |ring|;
    if k == 1 {
      assert closed[Prev(n + 1, 0)] == ring[0];
      assert !Crosses(p, closed[0], closed[Prev(n + 1, 0)]);
    } else {
      ShiftedCrossings(p, ring, closed, k - 1);
      assert closed[k - 1] == ring[k - 1];
      assert closed[Prev(n + 1, k - 1)] == ring[Prev(n, k - 1)];
    }
  }
}
