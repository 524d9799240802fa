/** What the even-odd test means in the plane: it stays within the ring's bounding box, and on a
    triangle it is the half-plane test. */
module RingGeometry {
  import opened Wrappers
  import opened Rings

  ghost predicate AllFinite(ring: Ring) {
    forall v :: v in ring ==> v.Finite()
  }

  /** Every vertex lies in the box; the vertices are finite. */
  ghost predicate Within(ring: Ring, south: real, west: real, north: real, east: real) {
    forall v :: v in ring ==>
                  v.Finite() && south <= v.y.value <= north && west <= v.x.value <= east
  }

  // ---- Where an edge meets a latitude ----

  /** A product of something nonnegative and a share of the whole stays between zero and the whole. */
  lemma ShareBound(w: real, p: real, d: real)
    requires 0.0 <= p <= d && 0.0 < d
    ensures 0.0 <= w ==> 0.0 <= w * p / d <= w
    ensures w <= 0.0 ==> w <= w * p / d <= 0.0
  {
    var q := p / d;
    assert q * d == p;
    assert 0.0 <= q <= 1.0;
    assert w * p / d == w * q by {
      assert w * p == (w * q) * d;
    }
  }

  lemma MeetsWithinEndpoints(lat: real, a: Vertex, b: Vertex)
    requires a.Finite() && b.Finite() && Straddles(lat, a, b)
    ensures a.x.value <= MeetsAt(lat, a, b) <= b.x.value || b.x.value <= MeetsAt(lat, a, b) <= a.x.value
  {
    if a.y.value <= lat {
      MeetsUpward(lat, a, b);
    } else {
      MeetsAtSymmetric(lat, a, b);
      MeetsUpward(lat, b, a);
    }
  }

  lemma MeetsUpward(lat: real, a: Vertex, b: Vertex)
    requires a.Finite() && b.Finite() && a.y.value <= lat < b.y.value
    ensures a.x.value <= MeetsAt(lat, a, b) <= b.x.value || b.x.value <= MeetsAt(lat, a, b) <= a.x.value
  {
    ShareBound(b.x.value - a.x.value, lat - a.y.value, b.y.value - a.y.value);
  }

  // ---- Inside implies within the bounding box ----

  lemma {:induction false} NoCrossingNoParity(lon: real, lat: real, path: Ring)
    requires forall i :: 0 < i < |path| ==> !Crosses(lon, lat, path[i], path[i - 1])
    ensures !PathParity(lon, lat, path)
  {
    if |path| >= 2 {
      forall i | 0 < i < |path[1..]| ensures !Crosses(lon, lat, path[1..][i], path[1..][i - 1]) {
        assert path[1..][i] == path[i + 1] && path[1..][i - 1] == path[i];
      }
      NoCrossingNoParity(lon, lat, path[1..]);
      assert !Crosses(lon, lat, path[1], path[0]);
    }
  }

  lemma InsideHasCrossing(lon: real, lat: real, ring: Ring)
    requires Inside(lon, lat, ring)
    ensures exists a, b :: a in ring && b in ring && Crosses(lon, lat, a, b)
  {
    InsideIsPathParity(lon, lat, ring);
    if !Crosses(lon, lat, ring[0], ring[|ring| - 1]) {
      if forall i :: 0 < i < |ring| ==> !Crosses(lon, lat, ring[i], ring[i - 1]) {
        NoCrossingNoParity(lon, lat, ring);
      }
    }
  }

  /** West of every vertex each straddling edge is crossed, so the parity of an open path only
      depends on whether its two ends lie on the same side of the latitude. */
  lemma {:induction false} WestOfPath(lon: real, lat: real, path: Ring)
    requires path != [] && AllFinite(path)
    requires forall v :: v in path ==> lon < v.x.value
    ensures PathParity(lon, lat, path)
        == (path[0].Finite() && path[|path| - 1].Finite() && Straddles(lat, path[0], path[|path| - 1]))
  {
    if |path| >= 2 {
      WestOfPath(lon, lat, path[1..]);
      WestOfEdge(lon, lat, path[1], path[0]);
    }
  }

  lemma WestOfEdge(lon: real, lat: real, a: Vertex, b: Vertex)
    requires a.Finite() && b.Finite() && lon < a.x.value && lon < b.x.value
    ensures Crosses(lon, lat, a, b) == Straddles(lat, a, b)
  {
    if Straddles(lat, a, b) {
      MeetsWithinEndpoints(lat, a, b);
    }
  }

  /** West of the whole ring an even number of edges is crossed. */
  lemma NotInsideWestOfRing(lon: real, lat: real, ring: Ring)
    requires AllFinite(ring)
    requires forall v :: v in ring ==> lon < v.x.value
    ensures !Inside(lon, lat, ring)
  {
    InsideIsPathParity(lon, lat, ring);
    if ring != [] {
      WestOfPath(lon, lat, ring);
      WestOfEdge(lon, lat, ring[0], ring[|ring| - 1]);
    }
  }

  /** Points inside lie in the box, which is closed to the south and west and open to the north and east. */
  lemma InsideWithinBounds(lon: real, lat: real, ring: Ring, south: real, west: real, north: real, east: real)
    requires Within(ring, south, west, north, east)
    requires Inside(lon, lat, ring)
    ensures south <= lat < north && west <= lon < east
  {
    InsideHasCrossing(lon, lat, ring);
    var a, b :| a in ring && b in ring && Crosses(lon, lat, a, b);
    MeetsWithinEndpoints(lat, a, b);
    if lon < west {
      NotInsideWestOfRing(lon, lat, ring);
    }
  }

  // ---- Rings with coordinates that are missing ----

  /** The edges with finite ends on different sides of the latitude */
  ghost function StraddledEdges(lat: real, ring: Ring): set<nat> {
    set i: nat | i < |ring| && ring[i].Finite() && ring[Previous(|ring|, i)].Finite()
                 && Straddles(lat, ring[i], ring[Previous(|ring|, i)])
  }

  ghost predicate EvenlyStraddled(lat: real, ring: Ring) {
    |StraddledEdges(lat, ring)| % 2 == 0
  }

  /** The box bounds the vertices that are finite. */
  ghost predicate BoundsFinite(ring: Ring, south: real, west: real, north: real, east: real) {
    forall v :: v in ring && v.Finite() ==> south <= v.y.value <= north && west <= v.x.value <= east
  }

  /** West of all finite vertices, every straddled edge is crossed. */
  lemma WestOfFinite(lon: real, lat: real, ring: Ring)
    requires forall v :: v in ring && v.Finite() ==> lon < v.x.value
    ensures Inside(lon, lat, ring) <==> !EvenlyStraddled(lat, ring)
  {
    forall i: nat | i < |ring|
      ensures i in CrossedEdges(lon, lat, ring, |ring|) <==> i in StraddledEdges(lat, ring)
    {
      var (a, b) := (ring[i], ring[Previous(|ring|, i)]);
      if a.Finite() && b.Finite() {
        WestOfEdge(lon, lat, a, b);
      }
    }
    assert CrossedEdges(lon, lat, ring, |ring|) == StraddledEdges(lat, ring);
  }

  /** If a coordinate is missing, the points inside still lie in any box around the finite vertices if and only if every
      latitude is straddled by an even number of edges with finite ends. */
  lemma BoxBoundsInsideIff(ring: Ring, south: real, west: real, north: real, east: real)
    requires BoundsFinite(ring, south, west, north, east)
    ensures (forall lon: real, lat: real :: Inside(lon, lat, ring) ==> south <= lat < north && west <= lon < east)
            <==> (forall lat: real :: EvenlyStraddled(lat, ring))
  {
    if forall lat: real :: EvenlyStraddled(lat, ring) {
      forall lon: real, lat: real | Inside(lon, lat, ring) ensures south <= lat < north && west <= lon < east {
        InsideHasCrossing(lon, lat, ring);
        var a, b :| a in ring && b in ring && Crosses(lon, lat, a, b);
        MeetsWithinEndpoints(lat, a, b);
        if lon < west {
          WestOfFinite(lon, lat, ring);
        }
      }
    } else {
      var lat: real :| !EvenlyStraddled(lat, ring);
      WestOfFinite(west - 1.0, lat, ring);
      assert Inside(west - 1.0, lat, ring);
    }
  }

  /** It can happen: with one coordinate missing, a point 101 degrees west of every vertex counts as inside. */
  lemma MissingCoordinateEscapesTheBox()
    ensures var ring := [Vertex(Some(1.0), Some(0.0)), Vertex(Some(1.0), Some(2.0)), Vertex(None, Some(1.0))];
            Inside(-100.0, 1.0, ring)
  {
    TriangleParity(-100.0, 1.0, Vertex(Some(1.0), Some(0.0)), Vertex(Some(1.0), Some(2.0)), Vertex(None, Some(1.0)));
  }

  // ---- Triangles: the answer is the half-plane test ----

  /** Twice the signed area of the triangle a, b, (x, y): positive when the point is left of a -> b */
  function Turn(a: Vertex, b: Vertex, x: real, y: real): real
    requires a.Finite() && b.Finite()
  {
    (b.x.value - a.x.value) * (y - a.y.value) - (b.y.value - a.y.value) * (x - a.x.value)
  }

  /** Comparing with a quotient is comparing with a product. */
  lemma LessThanQuotient(t: real, n: real, d: real)
    requires 0.0 < d
    ensures t < n / d <==> t * d < n
  {
    var q := n / d;
    assert q * d == n;
    if t < q {
      assert (q - t) * d > 0.0;
    } else {
      assert (t - q) * d >= 0.0;
    }
  }

  /** An upward edge is crossed exactly by the points strictly to its left. */
  lemma UpwardCrossing(lon: real, lat: real, a: Vertex, b: Vertex)
    requires a.Finite() && b.Finite() && a.y.value <= lat < b.y.value
    ensures Crosses(lon, lat, a, b) <==> Turn(a, b, lon, lat) > 0.0
  {
    var d := b.y.value - a.y.value;
    var n := (b.x.value - a.x.value) * (lat - a.y.value);
    LessThanQuotient(lon - a.x.value, n, d);
  }

  lemma TurnReversed(a: Vertex, b: Vertex, x: real, y: real)
    requires a.Finite() && b.Finite()
    ensures Turn(b, a, x, y) == -Turn(a, b, x, y)
  {
  }

  /** An edge's crossing in terms of its turn and its ends' heights above the point */
  ghost predicate CrossedBySigns(turn: real, from: real, to: real) {
    (from <= 0.0 < to && turn > 0.0) || (to <= 0.0 < from && turn < 0.0)
  }

  /** An edge is crossed when it straddles the latitude and the point is on its western side. */
  lemma CrossingByTurn(lon: real, lat: real, a: Vertex, b: Vertex)
    requires a.Finite() && b.Finite()
    ensures Crosses(lon, lat, a, b) <==>
            CrossedBySigns(Turn(a, b, lon, lat), a.y.value - lat, b.y.value - lat)
  {
    if a.y.value <= lat < b.y.value {
      UpwardCrossing(lon, lat, a, b);
    } else if b.y.value <= lat < a.y.value {
      UpwardCrossing(lon, lat, b, a);
      TurnReversed(a, b, lon, lat);
      CrossesSymmetric(lon, lat, a, b);
    }
  }

  /** The three turns add up to the triangle's area, and weigh the opposite vertices' latitudes to the point's. */
  lemma TurnIdentities(a: Vertex, b: Vertex, c: Vertex, x: real, y: real)
    requires a.Finite() && b.Finite() && c.Finite()
    ensures Turn(a, b, x, y) + Turn(b, c, x, y) + Turn(c, a, x, y) == Turn(a, b, c.x.value, c.y.value)
    ensures Turn(a, b, x, y) * (c.y.value - y) + Turn(b, c, x, y) * (a.y.value - y)
            + Turn(c, a, x, y) * (b.y.value - y) == 0.0
  {
    var (ax, ay) := (a.x.value - x, a.y.value - y);
    var (bx, b') := (b.x.value - x, b.y.value - y);
    var (cx, cy) := (c.x.value - x, c.y.value - y);
    assert (ax * b' - ay * bx) * cy + (bx * cy - b' * cx) * ay + (cx * ay - cy * ax) * b' == 0.0;
  }

  /** p has the sign of the product o * y. */
  ghost predicate SignOfProduct(p: real, o: real, y: real) {
    && (p > 0.0 <==> (o > 0.0 && y > 0.0) || (o < 0.0 && y < 0.0))
    && (p < 0.0 <==> (o > 0.0 && y < 0.0) || (o < 0.0 && y > 0.0))
  }

  lemma ProductSign(o: real, y: real)
    ensures SignOfProduct(o * y, o, y)
  {
  }

  /** The turns add up to something positive, and weighted with the opposite heights they cancel. */
  ghost predicate Balanced(ab: real, bc: real, ca: real, a: real, b: real, c: real) {
    ab + bc + ca > 0.0 && !(a == b == c == 0.0) && ab * c + bc * a + ca * b == 0.0
  }

  /** The sign argument: in a balanced triangle, all turns positive means one crossing, and a
      negative turn means none or two. */
  lemma CrossingsBySigns(ab: real, bc: real, ca: real, a: real, b: real, c: real)
    requires Balanced(ab, bc, ca, a, b, c)
    ensures ab > 0.0 && bc > 0.0 && ca > 0.0 ==>
              (CrossedBySigns(ab, a, b) != (CrossedBySigns(bc, b, c) != CrossedBySigns(ca, c, a)))
    ensures ab < 0.0 || bc < 0.0 || ca < 0.0 ==>
              (CrossedBySigns(ab, a, b) == (CrossedBySigns(bc, b, c) != CrossedBySigns(ca, c, a)))
  {
    ProductSign(ab, c);
    ProductSign(bc, a);
    ProductSign(ca, b);
    SignCases(ab, bc, ca, a, b, c, ab * c, bc * a, ca * b);
  }

  lemma SignCases(ab: real, bc: real, ca: real, a: real, b: real, c: real, pc: real, pa: real, pb: real)
    requires ab + bc + ca > 0.0 && !(a == b == c == 0.0) && pc + pa + pb == 0.0
    requires SignOfProduct(pc, ab, c) && SignOfProduct(pa, bc, a) && SignOfProduct(pb, ca, b)
    ensures ab > 0.0 && bc > 0.0 && ca > 0.0 ==>
              (CrossedBySigns(ab, a, b) != (CrossedBySigns(bc, b, c) != CrossedBySigns(ca, c, a)))
    ensures ab < 0.0 || bc < 0.0 || ca < 0.0 ==>
              (CrossedBySigns(ab, a, b) == (CrossedBySigns(bc, b, c) != CrossedBySigns(ca, c, a)))
  {
  }

  lemma TriangleBalance(lon: real, lat: real, a: Vertex, b: Vertex, c: Vertex)
    requires a.Finite() && b.Finite() && c.Finite()
    requires Turn(a, b, c.x.value, c.y.value) > 0.0
    ensures Balanced(Turn(a, b, lon, lat), Turn(b, c, lon, lat), Turn(c, a, lon, lat),
                     a.y.value - lat, b.y.value - lat, c.y.value - lat)
  {
    TurnIdentities(a, b, c, lon, lat);
  }

  /** The answer for a triangle, given the turns of the point at its three sides */
  lemma TriangleByTurns(lon: real, lat: real, a: Vertex, b: Vertex, c: Vertex, ab: real, bc: real, ca: real)
    requires a.Finite() && b.Finite() && c.Finite()
    requires Balanced(ab, bc, ca, a.y.value - lat, b.y.value - lat, c.y.value - lat)
    requires Crosses(lon, lat, a, b) <==> CrossedBySigns(ab, a.y.value - lat, b.y.value - lat)
    requires Crosses(lon, lat, b, c) <==> CrossedBySigns(bc, b.y.value - lat, c.y.value - lat)
    requires Crosses(lon, lat, c, a) <==> CrossedBySigns(ca, c.y.value - lat, a.y.value - lat)
    ensures ab > 0.0 && bc > 0.0 && ca > 0.0 ==> Inside(lon, lat, [a, b, c])
    ensures ab < 0.0 || bc < 0.0 || ca < 0.0 ==> !Inside(lon, lat, [a, b, c])
  {
    TriangleParity(lon, lat, a, b, c);
    CrossingsBySigns(ab, bc, ca, a.y.value - lat, b.y.value - lat, c.y.value - lat);
  }

  /** For a counter-clockwise triangle, points strictly left of all three sides are inside, and points
      strictly right of some side are outside. With FanDecomposition this fixes what any ring's answer means. */
  lemma TriangleMeaning(lon: real, lat: real, a: Vertex, b: Vertex, c: Vertex)
    requires a.Finite() && b.Finite() && c.Finite()
    requires Turn(a, b, c.x.value, c.y.value) > 0.0
    ensures Turn(a, b, lon, lat) > 0.0 && Turn(b, c, lon, lat) > 0.0 && Turn(c, a, lon, lat) > 0.0
            ==> Inside(lon, lat, [a, b, c])
    ensures Turn(a, b, lon, lat) < 0.0 || Turn(b, c, lon, lat) < 0.0 || Turn(c, a, lon, lat) < 0.0
            ==> !Inside(lon, lat, [a, b, c])
  {
    CrossingByTurn(lon, lat, a, b);
    CrossingByTurn(lon, lat, b, c);
    CrossingByTurn(lon, lat, c, a);
    TriangleBalance(lon, lat, a, b, c);
    TriangleByTurns(lon, lat, a, b, c, Turn(a, b, lon, lat), Turn(b, c, lon, lat), Turn(c, a, lon, lat));
  }
}
