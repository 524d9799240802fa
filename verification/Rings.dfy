/** The even-odd ring test behind building resolution and geocoding.
    Coordinates are exact reals; x is a longitude and y a latitude. */
module Rings {
  import opened Wrappers

  /** A position of a ring. None is a coordinate that is missing, is not a number or is infinite. */
  datatype Vertex = Vertex(x: Option<real>, y: Option<real>) {
    predicate Finite() {
      x.Some? && y.Some?
    }
  }

  type Ring = seq<Vertex>

  /** Number.EPSILON, the smallest step above one */
  const EPSILON: real := 1.0 / 4503599627370496.0

  /** JavaScript's `d || Number.EPSILON` */
  function NonZero(d: real): real {
    if d == 0.0 then EPSILON else d
  }

  predicate Straddles(lat: real, a: Vertex, b: Vertex)
    requires a.Finite() && b.Finite()
  {
    (a.y.value > lat) != (b.y.value > lat)
  }

  /** Longitude at which the line through (xi, yi) and (xj, yj) meets a latitude */
  function Meeting(lat: real, xi: real, yi: real, xj: real, yj: real): real {
    (xj - xi) * (lat - yi) / NonZero(yj - yi) + xi
  }

  function MeetsAt(lat: real, vi: Vertex, vj: Vertex): real
    requires vi.Finite() && vj.Finite()
  {
    Meeting(lat, vi.x.value, vi.y.value, vj.x.value, vj.y.value)
  }

  /** One edge's toggle: an edge with a coordinate that is not finite is skipped. */
  predicate Crosses(lon: real, lat: real, vi: Vertex, vj: Vertex) {
    && vi.Finite() && vj.Finite()
    && Straddles(lat, vi, vj)
    && lon < MeetsAt(lat, vi, vj)
  }

  function Previous(n: nat, i: nat): nat
    requires i < n
  {
    if i == 0 then n - 1 else i - 1
  }

  /** The first n edges of the ring that a ray going east from the point crosses */
  ghost function CrossedEdges(lon: real, lat: real, ring: Ring, n: nat): set<nat>
    requires n <= |ring|
  {
    set i: nat | i < n && Crosses(lon, lat, ring[i], ring[Previous(|ring|, i)])
  }

  /** Whether a point is inside a ring: the ray crosses an odd number of its edges. */
  ghost predicate Inside(lon: real, lat: real, ring: Ring) {
    |CrossedEdges(lon, lat, ring, |ring|)| % 2 == 1
  }

  lemma CrossedEdgesStep(lon: real, lat: real, ring: Ring, n: nat)
    requires n < |ring|
    ensures |CrossedEdges(lon, lat, ring, n + 1)| ==
            |CrossedEdges(lon, lat, ring, n)| + (if Crosses(lon, lat, ring[n], ring[Previous(|ring|, n)]) then 1 else 0)
  {
    var before := CrossedEdges(lon, lat, ring, n);
    if Crosses(lon, lat, ring[n], ring[Previous(|ring|, n)]) {
      assert CrossedEdges(lon, lat, ring, n + 1) == before + {n};
    } else {
      assert CrossedEdges(lon, lat, ring, n + 1) == before;
    }
  }

  /** building-resolution's loop: walks the edges, skips those with a coordinate that is not finite. */
  method PointInRing(lon: real, lat: real, ring: Ring) returns (inside: bool)
    ensures inside <==> Inside(lon, lat, ring)
  {
    inside := false;
    var i, j := 0, |ring| - 1;
    while i < |ring|
      invariant 0 <= i <= |ring|
      invariant j == if i == 0 then |ring| - 1 else i - 1
      invariant inside <==> |CrossedEdges(lon, lat, ring, i)| % 2 == 1
    {
      CrossedEdgesStep(lon, lat, ring, i);
      var vi, vj := ring[i], ring[j];
      j, i := i, i + 1;
      if !vi.x.Some? || !vi.y.Some? || !vj.x.Some? || !vj.y.Some? {
        continue;
      }
      var intersect :=
        (vi.y.value > lat) != (vj.y.value > lat)
        && lon < Meeting(lat, vi.x.value, vi.y.value, vj.x.value, vj.y.value);
      if intersect {
        inside := !inside;
      }
    }
  }

  // ---- The edge test does not depend on the direction of the edge ----

  /** Once an edge straddles the latitude, its endpoints differ in latitude: the EPSILON guard is never used. */
  lemma GuardUnreachable(lat: real, a: Vertex, b: Vertex)
    requires a.Finite() && b.Finite() && Straddles(lat, a, b)
    ensures NonZero(b.y.value - a.y.value) == b.y.value - a.y.value != 0.0
  {
  }

  lemma MeetsAtSymmetric(lat: real, a: Vertex, b: Vertex)
    requires a.Finite() && b.Finite() && Straddles(lat, a, b)
    ensures MeetsAt(lat, a, b) == MeetsAt(lat, b, a)
  {
    var d := b.y.value - a.y.value;
    var w := b.x.value - a.x.value;
    var p := lat - a.y.value;
    assert MeetsAt(lat, a, b) == w * p / d + a.x.value;
    assert MeetsAt(lat, b, a) == (-w) * (p - d) / (-d) + b.x.value;
    DivideNegated(w, p - d, d);
    DivideShift(w, p, d);
  }

  lemma DivideNegated(w: real, q: real, d: real)
    requires d != 0.0
    ensures (-w) * q / (-d) == w * q / d
  {
  }

  lemma DivideShift(w: real, p: real, d: real)
    requires d != 0.0
    ensures w * (p - d) / d == w * p / d - w
  {
    assert w * (p - d) == w * p - w * d;
  }

  lemma CrossesSymmetric(lon: real, lat: real, a: Vertex, b: Vertex)
    ensures Crosses(lon, lat, a, b) == Crosses(lon, lat, b, a)
  {
    if a.Finite() && b.Finite() && Straddles(lat, a, b) {
      MeetsAtSymmetric(lat, a, b);
    }
  }

  // ---- Parity along open paths ----

  /** Parity of the crossings along an open path of vertices */
  ghost predicate PathParity(lon: real, lat: real, path: Ring) {
    if |path| < 2 then false
    else Crosses(lon, lat, path[1], path[0]) != PathParity(lon, lat, path[1..])
  }

  lemma {:induction false} PathParityConcat(lon: real, lat: real, a: Ring, b: Ring)
    requires a != [] && b != []
    ensures PathParity(lon, lat, a + b) ==
            (PathParity(lon, lat, a) != (Crosses(lon, lat, b[0], a[|a| - 1]) != PathParity(lon, lat, b)))
  {
    if |a| == 1 {
      assert (a + b)[1..] == b;
    } else {
      assert (a + b)[1..] == a[1..] + b;
      PathParityConcat(lon, lat, a[1..], b);
    }
  }

  /** The loop's count of crossed edges and the parity of the path agree, edge by edge. */
  lemma {:induction false} CountMatchesPath(lon: real, lat: real, ring: Ring, n: nat)
    requires 1 <= n <= |ring|
    ensures (|CrossedEdges(lon, lat, ring, n)| % 2 == 1) <==>
            (Crosses(lon, lat, ring[0], ring[|ring| - 1]) != PathParity(lon, lat, ring[..n]))
  {
    CrossedEdgesStep(lon, lat, ring, n - 1);
    if n == 1 {
      assert CrossedEdges(lon, lat, ring, 0) == {};
    } else {
      CountMatchesPath(lon, lat, ring, n - 1);
      assert ring[..n] == ring[..n - 1] + [ring[n - 1]];
      PathParityConcat(lon, lat, ring[..n - 1], [ring[n - 1]]);
    }
  }

  lemma InsideIsPathParity(lon: real, lat: real, ring: Ring)
    ensures Inside(lon, lat, ring) <==>
            ring != [] && (Crosses(lon, lat, ring[0], ring[|ring| - 1]) != PathParity(lon, lat, ring))
  {
    if ring == [] {
      assert CrossedEdges(lon, lat, ring, 0) == {};
    } else {
      CountMatchesPath(lon, lat, ring, |ring|);
      assert ring[..|ring|] == ring;
    }
  }

  function Reversed(ring: Ring): (r: Ring)
    ensures |r| == |ring| && forall i :: 0 <= i < |ring| ==> r[i] == ring[|ring| - 1 - i]
  {
    if ring == [] then [] else Reversed(ring[1..]) + [ring[0]]
  }

  lemma {:induction false} PathParityReversed(lon: real, lat: real, path: Ring)
    ensures PathParity(lon, lat, Reversed(path)) == PathParity(lon, lat, path)
  {
    if |path| >= 2 {
      PathParityReversed(lon, lat, path[1..]);
      PathParityConcat(lon, lat, Reversed(path[1..]), [path[0]]);
      CrossesSymmetric(lon, lat, path[0], path[1]);
    }
  }

  // ---- What the answer does not depend on ----

  lemma ReversalInvariant(lon: real, lat: real, ring: Ring)
    ensures Inside(lon, lat, Reversed(ring)) == Inside(lon, lat, ring)
  {
    InsideIsPathParity(lon, lat, ring);
    InsideIsPathParity(lon, lat, Reversed(ring));
    PathParityReversed(lon, lat, ring);
    if ring != [] {
      CrossesSymmetric(lon, lat, ring[0], ring[|ring| - 1]);
    }
  }

  /** The ring may start at any of its vertices. */
  lemma RotationInvariant(lon: real, lat: real, ring: Ring, k: nat)
    requires k <= |ring|
    ensures Inside(lon, lat, ring[k..] + ring[..k]) == Inside(lon, lat, ring)
  {
    var a, b := ring[..k], ring[k..];
    assert ring == a + b;
    if a == [] {
      assert b + a == ring;
    } else if b == [] {
      assert b + a == ring;
    } else {
      InsideIsPathParity(lon, lat, a + b);
      InsideIsPathParity(lon, lat, b + a);
      PathParityConcat(lon, lat, a, b);
      PathParityConcat(lon, lat, b, a);
    }
  }

  /** A ring in the closed form of section 3.1.6 of RFC 7946 and its open form give the same answer. */
  lemma ClosingInvariant(lon: real, lat: real, ring: Ring)
    requires ring != []
    ensures Inside(lon, lat, ring + [ring[0]]) == Inside(lon, lat, ring)
  {
    InsideIsPathParity(lon, lat, ring);
    InsideIsPathParity(lon, lat, ring + [ring[0]]);
    PathParityConcat(lon, lat, ring, [ring[0]]);
  }

  // ---- Fan decomposition ----

  /** XOR of the answers for the triangles (v0, v1, v2) .. (v0, v(k-1), v(k)) */
  ghost predicate FanParity(lon: real, lat: real, ring: Ring, k: nat)
    requires k < |ring|
  {
    if k < 2 then false
    else FanParity(lon, lat, ring, k - 1) != Inside(lon, lat, [ring[0], ring[k - 1], ring[k]])
  }

  lemma TriangleParity(lon: real, lat: real, a: Vertex, b: Vertex, c: Vertex)
    ensures Inside(lon, lat, [a, b, c]) <==>
            (Crosses(lon, lat, a, b) != (Crosses(lon, lat, b, c) != Crosses(lon, lat, c, a)))
  {
    InsideIsPathParity(lon, lat, [a, b, c]);
    assert [a, b, c][1..] == [b, c] && [b, c][1..] == [c];
    assert PathParity(lon, lat, [b, c]) == Crosses(lon, lat, c, b);
    assert PathParity(lon, lat, [a, b, c]) == (Crosses(lon, lat, b, a) != Crosses(lon, lat, c, b));
    CrossesSymmetric(lon, lat, a, b);
    CrossesSymmetric(lon, lat, b, c);
    CrossesSymmetric(lon, lat, a, c);
  }

  lemma {:induction false} FanPrefix(lon: real, lat: real, ring: Ring, k: nat)
    requires 1 <= k < |ring|
    ensures FanParity(lon, lat, ring, k) ==
            (PathParity(lon, lat, ring[..k + 1]) != Crosses(lon, lat, ring[0], ring[k]))
  {
    if k == 1 {
      assert ring[..2] == [ring[0], ring[1]];
      assert [ring[0], ring[1]][1..] == [ring[1]];
      CrossesSymmetric(lon, lat, ring[0], ring[1]);
    } else {
      FanPrefix(lon, lat, ring, k - 1);
      assert ring[..k + 1] == ring[..k] + [ring[k]];
      PathParityConcat(lon, lat, ring[..k], [ring[k]]);
      TriangleParity(lon, lat, ring[0], ring[k - 1], ring[k]);
      CrossesSymmetric(lon, lat, ring[k - 1], ring[k]);
      CrossesSymmetric(lon, lat, ring[0], ring[k]);
    }
  }

  /** A ring of any length and shape is the XOR of the triangles that fan out from its first vertex. */
  lemma FanDecomposition(lon: real, lat: real, ring: Ring)
    requires ring != []
    ensures Inside(lon, lat, ring) == FanParity(lon, lat, ring, |ring| - 1)
  {
    InsideIsPathParity(lon, lat, ring);
    if |ring| >= 2 {
      FanPrefix(lon, lat, ring, |ring| - 1);
      assert ring[..|ring|] == ring;
      CrossesSymmetric(lon, lat, ring[0], ring[|ring| - 1]);
    }
  }
}
