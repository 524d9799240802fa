/** Polygons with holes and GeoJSON geometries: containment, points, extents and centre. */
module Polygons {
  import opened Wrappers
  import opened Rings
  import opened RingGeometry

  /** GeoJSON geometry over positions of type V; Other stands for any other type, or none. */
  datatype Geometry<V> =
    | Polygon(rings: seq<seq<V>>)
    | MultiPolygon(polygons: seq<seq<seq<V>>>)
    | Other

  // ---- Containment, as building resolution decides it ----

  ghost predicate InPolygon(lon: real, lat: real, polygon: seq<Ring>) {
    && polygon != []
    && Inside(lon, lat, polygon[0])
    && forall k :: 0 < k < |polygon| ==> !Inside(lon, lat, polygon[k])
  }

  ghost predicate Contains(geometry: Geometry<Vertex>, lon: real, lat: real) {
    match geometry
    case Polygon(rings) => InPolygon(lon, lat, rings)
    case MultiPolygon(polygons) => exists p :: p in polygons && InPolygon(lon, lat, p)
    case Other => false
  }

  /** Without holes, a polygon contains what is inside its ring; without rings it contains nothing. */
  lemma ContainsOneRing(ring: Ring, lon: real, lat: real)
    ensures Contains(Polygon([ring]), lon, lat) <==> Inside(lon, lat, ring)
    ensures !Contains(Polygon([]), lon, lat)
  {
  }

  /** Every further ring takes away what is inside it. */
  lemma ContainsWithHole(rings: seq<Ring>, hole: Ring, lon: real, lat: real)
    requires rings != []
    ensures Contains(Polygon(rings + [hole]), lon, lat)
            <==> Contains(Polygon(rings), lon, lat) && !Inside(lon, lat, hole)
  {
    var all := rings + [hole];
    assert forall k :: 0 <= k < |rings| ==> all[k] == rings[k];
    assert all[|rings|] == hole;
  }

  /** Every further polygon adds what it contains. */
  lemma ContainsOneMore(polygons: seq<seq<Ring>>, polygon: seq<Ring>, lon: real, lat: real)
    ensures Contains(MultiPolygon(polygons + [polygon]), lon, lat)
            <==> Contains(MultiPolygon(polygons), lon, lat) || Contains(Polygon(polygon), lon, lat)
    ensures !Contains(MultiPolygon([]), lon, lat)
  {
    assert forall p :: p in polygons + [polygon] <==> p in polygons || p == polygon;
  }

  method PointInPolygon(lon: real, lat: real, polygon: seq<Ring>) returns (r: bool)
    ensures r <==> InPolygon(lon, lat, polygon)
  {
    if |polygon| == 0 {
      return false;
    }
    var outer := PointInRing(lon, lat, polygon[0]);
    if !outer {
      return false;
    }
    var index := 1;
    while index < |polygon|
      invariant 1 <= index <= |polygon|
      invariant forall k :: 0 < k < index ==> !Inside(lon, lat, polygon[k])
    {
      var hole := PointInRing(lon, lat, polygon[index]);
      if hole {
        return false;
      }
      index := index + 1;
    }
    return true;
  }

  method GeometryContainsPoint(geometry: Geometry<Vertex>, lon: real, lat: real) returns (r: bool)
    ensures r <==> Contains(geometry, lon, lat)
  {
    match geometry
    case Polygon(rings) =>
      r := PointInPolygon(lon, lat, rings);
    case MultiPolygon(polygons) =>
      r := false;
      for k := 0 to |polygons|
        invariant r <==> exists p :: p in polygons[..k] && InPolygon(lon, lat, p)
      {
        var here := PointInPolygon(lon, lat, polygons[k]);
        assert polygons[..k + 1] == polygons[..k] + [polygons[k]];
        if here {
          assert polygons[k] in polygons[..k + 1];
          return true;
        }
      }
      assert polygons[..|polygons|] == polygons;
    case Other =>
      r := false;
  }

  // ---- Containment, as geocoding decides it ----

  /** Geocoding reads plain finite numbers. */
  datatype Position = Position(lon: real, lat: real)

  function AsVertex(p: Position): Vertex {
    Vertex(Some(p.lon), Some(p.lat))
  }

  function AsRing(ring: seq<Position>): (r: Ring)
    ensures |r| == |ring| && forall i :: 0 <= i < |ring| ==> r[i] == AsVertex(ring[i])
  {
    seq(|ring|, i requires 0 <= i < |ring| => AsVertex(ring[i]))
  }

  function AsPolygon(polygon: seq<seq<Position>>): (r: seq<Ring>)
    ensures |r| == |polygon| && forall i :: 0 <= i < |polygon| ==> r[i] == AsRing(polygon[i])
  {
    seq(|polygon|, i requires 0 <= i < |polygon| => AsRing(polygon[i]))
  }

  function AsPolygons(polygons: seq<seq<seq<Position>>>): (r: seq<seq<Ring>>)
    ensures |r| == |polygons| && forall i :: 0 <= i < |polygons| ==> r[i] == AsPolygon(polygons[i])
  {
    seq(|polygons|, i requires 0 <= i < |polygons| => AsPolygon(polygons[i]))
  }

  function AsGeometry(geometry: Geometry<Position>): Geometry<Vertex> {
    match geometry
    case Polygon(rings) => Polygon(AsPolygon(rings))
    case MultiPolygon(polygons) => MultiPolygon(AsPolygons(polygons))
    case Other => Other
  }

  /** Geocoding's own loop over the edges */
  method GeocodingPointInRing(lon: real, lat: real, ring: seq<Position>) returns (inside: bool)
    ensures inside <==> Inside(lon, lat, AsRing(ring))
  {
    ghost var vertices := AsRing(ring);
    inside := false;
    var i, j := 0, |ring| - 1;
    while i < |ring|
      invariant 0 <= i <= |ring|
      invariant j == if i == 0 then |ring| - 1 else i - 1
      invariant inside <==> |CrossedEdges(lon, lat, vertices, i)| % 2 == 1
    {
      CrossedEdgesStep(lon, lat, vertices, i);
      var pi, pj := ring[i], ring[j];
      var intersects :=
        (pi.lat > lat) != (pj.lat > lat)
        && lon < Meeting(lat, pi.lon, pi.lat, pj.lon, pj.lat);
      assert intersects == Crosses(lon, lat, vertices[i], vertices[j]);
      if intersects {
        inside := !inside;
      }
      j, i := i, i + 1;
    }
  }

  datatype PolygonError = MissingExteriorRing

  /** Geocoding's polygon test; it reads the exterior ring without asking whether there is one. */
  method GeocodingInPolygon(lon: real, lat: real, polygon: seq<seq<Position>>) returns (r: Result<bool, PolygonError>)
    ensures polygon == [] ==> r == Failure(MissingExteriorRing)
    ensures polygon != [] ==> r == Success(InPolygon(lon, lat, AsPolygon(polygon)))
  {
    if |polygon| == 0 {
      return Failure(MissingExteriorRing);
    }
    var outer := GeocodingPointInRing(lon, lat, polygon[0]);
    if !outer {
      return Success(false);
    }
    for k := 1 to |polygon|
      invariant forall m :: 0 < m < k ==> !Inside(lon, lat, AsPolygon(polygon)[m])
    {
      var hole := GeocodingPointInRing(lon, lat, polygon[k]);
      if hole {
        return Success(false);
      }
    }
    return Success(true);
  }

  /** Whether geocoding reads a missing exterior ring: some polygon without rings comes before any that contains the
      point. */
  ghost predicate ReadsMissingRing(geometry: Geometry<Position>, lon: real, lat: real) {
    match geometry
    case Polygon(rings) => rings == []
    case MultiPolygon(polygons) =>
      exists k :: 0 <= k < |polygons| && polygons[k] == []
                  && forall m :: 0 <= m < k ==> !InPolygon(lon, lat, AsPolygon(polygons[m]))
    case Other => false
  }

  /** The two implementations agree on finite coordinates, except that geocoding fails on a polygon without rings. */
  method GeocodingPointInside(lon: real, lat: real, geometry: Geometry<Position>)
    returns (r: Result<bool, PolygonError>)
    requires !geometry.Other?
    ensures r.Failure? <==> ReadsMissingRing(geometry, lon, lat)
    ensures r.Success? ==> r.value == Contains(AsGeometry(geometry), lon, lat)
  {
    match geometry
    case Polygon(rings) =>
      r := GeocodingInPolygon(lon, lat, rings);
    case MultiPolygon(polygons) =>
      for k := 0 to |polygons|
        invariant forall m :: 0 <= m < k ==> polygons[m] != [] && !InPolygon(lon, lat, AsPolygon(polygons[m]))
      {
        r := GeocodingInPolygon(lon, lat, polygons[k]);
        if r.Failure? || r.value {
          assert r.Success? ==> AsGeometry(geometry).polygons[k] in AsGeometry(geometry).polygons;
          return;
        }
      }
      r := Success(false);
  }

  // ---- Points, extents and centre ----

  function Flatten<T>(parts: seq<seq<T>>): seq<T> {
    if parts == [] then [] else Flatten(parts[..|parts| - 1]) + parts[|parts| - 1]
  }

  /** Every position of every ring, exterior rings and holes alike */
  function Points<V>(geometry: Geometry<V>): seq<V> {
    match geometry
    case Polygon(rings) => Flatten(rings)
    case MultiPolygon(polygons) => Flatten(Flatten(polygons))
    case Other => []
  }

  /** Every ring counts, exterior rings and holes of all polygons alike. */
  lemma PointsByName<V>(rings: seq<seq<V>>, ring: seq<V>, polygons: seq<seq<seq<V>>>, polygon: seq<seq<V>>)
    ensures Points(Polygon(rings + [ring])) == Points(Polygon(rings)) + ring
    ensures Points(MultiPolygon(polygons + [polygon]))
            == Points(MultiPolygon(polygons)) + Points(Polygon(polygon))
    ensures Points<V>(Polygon([])) == [] && Points<V>(MultiPolygon([])) == []
  {
    assert (rings + [ring])[..|rings|] == rings;
    assert (polygons + [polygon])[..|polygons|] == polygons;
    FlattenConcat(Flatten(polygons), polygon);
  }

  lemma {:induction false} InFlatten<T>(parts: seq<seq<T>>, part: seq<T>, v: T)
    requires part in parts && v in part
    ensures v in Flatten(parts)
  {
    var n := |parts| - 1;
    if part != parts[n] {
      InFlatten(parts[..n], part, v);
    }
  }

  lemma {:induction false} FlattenConcat<T>(a: seq<seq<T>>, b: seq<seq<T>>)
    ensures Flatten(a + b) == Flatten(a) + Flatten(b)
  {
    if b == [] {
      assert a + b == a;
    } else {
      FlattenConcat(a, b[..|b| - 1]);
      assert (a + b)[..|a + b| - 1] == a + b[..|b| - 1];
    }
  }

  method CollectPoints<V>(geometry: Geometry<V>) returns (pts: seq<V>)
    ensures pts == Points(geometry)
  {
    pts := [];
    match geometry
    case Polygon(rings) =>
      for r := 0 to |rings|
        invariant pts == Flatten(rings[..r])
      {
        pts := pts + rings[r];
        assert rings[..r + 1][..r] == rings[..r];
      }
      assert rings[..|rings|] == rings;
    case MultiPolygon(polygons) =>
      for p := 0 to |polygons|
        invariant pts == Flatten(Flatten(polygons[..p]))
      {
        ghost var before := Flatten(polygons[..p]);
        assert before + polygons[p][..0] == before;
        for r := 0 to |polygons[p]|
          invariant pts == Flatten(before + polygons[p][..r])
        {
          pts := pts + polygons[p][r];
          assert (before + polygons[p][..r + 1])[..|before| + r] == before + polygons[p][..r];
        }
        assert polygons[p][..|polygons[p]|] == polygons[p];
        assert polygons[..p + 1][..p] == polygons[..p];
      }
      assert polygons[..|polygons|] == polygons;
    case Other =>
  }

  /** A running Math.min or Math.max: still at its infinite start, at a number, or spoilt by a coordinate that is not
      finite */
  datatype Bound = Start | At(value: real) | NotFinite

  function Least(b: Bound, v: Option<real>): Bound {
    if b.NotFinite? || v.None? then NotFinite
    else if b.Start? || v.value < b.value then At(v.value)
    else b
  }

  function Greatest(b: Bound, v: Option<real>): Bound {
    if b.NotFinite? || v.None? then NotFinite
    else if b.Start? || v.value > b.value then At(v.value)
    else b
  }

  /** lo and hi are the smallest and the largest of the values. */
  ghost predicate Span(values: seq<Option<real>>, lo: real, hi: real) {
    && Some(lo) in values && Some(hi) in values
    && forall v :: v in values ==> v.Some? && lo <= v.value <= hi
  }

  ghost predicate Bounds(values: seq<Option<real>>, lo: Bound, hi: Bound) {
    if values == [] then lo == hi == Start
    else if None in values then lo == hi == NotFinite
    else lo.At? && hi.At? && Span(values, lo.value, hi.value)
  }

  lemma BoundsStep(values: seq<Option<real>>, lo: Bound, hi: Bound, v: Option<real>)
    requires Bounds(values, lo, hi)
    ensures Bounds(values + [v], Least(lo, v), Greatest(hi, v))
  {
    var all := values + [v];
    assert v in all;
    assert forall w :: w in all <==> w in values || w == v;
  }

  function Latitudes(pts: Ring): (r: seq<Option<real>>)
    ensures |r| == |pts| && forall i :: 0 <= i < |pts| ==> r[i] == pts[i].y
  {
    seq(|pts|, i requires 0 <= i < |pts| => pts[i].y)
  }

  function Longitudes(pts: Ring): (r: seq<Option<real>>)
    ensures |r| == |pts| && forall i :: 0 <= i < |pts| ==> r[i] == pts[i].x
  {
    seq(|pts|, i requires 0 <= i < |pts| => pts[i].x)
  }

  lemma ExtentsStep(pts: Ring, k: nat, south: Bound, west: Bound, north: Bound, east: Bound)
    requires k < |pts|
    requires Bounds(Latitudes(pts[..k]), south, north) && Bounds(Longitudes(pts[..k]), west, east)
    ensures Bounds(Latitudes(pts[..k + 1]), Least(south, pts[k].y), Greatest(north, pts[k].y))
    ensures Bounds(Longitudes(pts[..k + 1]), Least(west, pts[k].x), Greatest(east, pts[k].x))
  {
    var (ys, xs) := (Latitudes(pts[..k]), Longitudes(pts[..k]));
    assert Latitudes(pts[..k + 1]) == ys + [pts[k].y];
    assert Longitudes(pts[..k + 1]) == xs + [pts[k].x];
    BoundsStep(ys, south, north, pts[k].y);
    BoundsStep(xs, west, east, pts[k].x);
  }

  method Extents(pts: Ring) returns (south: Bound, west: Bound, north: Bound, east: Bound)
    ensures Bounds(Latitudes(pts), south, north)
    ensures Bounds(Longitudes(pts), west, east)
  {
    south, west, north, east := Start, Start, Start, Start;
    for k := 0 to |pts|
      invariant Bounds(Latitudes(pts[..k]), south, north)
      invariant Bounds(Longitudes(pts[..k]), west, east)
    {
      ExtentsStep(pts, k, south, west, north, east);
      south, north := Least(south, pts[k].y), Greatest(north, pts[k].y);
      west, east := Least(west, pts[k].x), Greatest(east, pts[k].x);
    }
    assert pts[..|pts|] == pts;
  }

  /** A centre; a coordinate is None when the mean is not finite. */
  datatype Centre = Centre(latitude: Option<real>, longitude: Option<real>)

  ghost predicate Middle(values: seq<Option<real>>, m: Option<real>) {
    if None in values then m == None
    else m.Some? && exists lo, hi :: Span(values, lo, hi) && m.value == (lo + hi) / 2.0
  }

  /** The centre of the bounding box of all positions */
  ghost predicate IsCentre(geometry: Geometry<Vertex>, c: Centre) {
    Middle(Latitudes(Points(geometry)), c.latitude) && Middle(Longitudes(Points(geometry)), c.longitude)
  }

  function Mean(lo: Bound, hi: Bound): Option<real> {
    if lo.At? && hi.At? then Some((lo.value + hi.value) / 2.0) else None
  }

  method GeometryCenter(geometry: Geometry<Vertex>) returns (c: Option<Centre>)
    ensures c.None? <==> Points(geometry) == []
    ensures c.Some? ==> IsCentre(geometry, c.value)
  {
    var pts := CollectPoints(geometry);
    if |pts| == 0 {
      return None;
    }
    var south, west, north, east := Extents(pts);
    assert Latitudes(pts) != [] && Longitudes(pts) != [];
    c := Some(Centre(Mean(south, north), Mean(west, east)));
  }

  // ---- Containment within the box of all positions ----

  lemma ContainsWithinBounds(geometry: Geometry<Vertex>, lon: real, lat: real, south: real, west: real, north: real,
      east: real)
    requires Contains(geometry, lon, lat)
    requires Within(Points(geometry), south, west, north, east)
    ensures south <= lat < north && west <= lon < east
  {
    var outer: Ring;
    match geometry {
      case Polygon(rings) =>
        outer := rings[0];
        forall v | v in outer ensures v in Points(geometry) {
          InFlatten(rings, outer, v);
        }
      case MultiPolygon(polygons) =>
        var p :| p in polygons && InPolygon(lon, lat, p);
        outer := p[0];
        forall v | v in outer ensures v in Points(geometry) {
          InFlatten(polygons, p, outer);
          InFlatten(Flatten(polygons), outer, v);
        }
    }
    InsideWithinBounds(lon, lat, outer, south, west, north, east);
  }

  /** Geocoding's search box: the extents, padded by a quarter of their size and at least 0.00006 degrees */
  datatype Box = Box(south: real, west: real, north: real, east: real)

  const LEAST_PADDING := 0.00006

  function Padding(lo: real, hi: real): real {
    if (hi - lo) * 0.25 > LEAST_PADDING then (hi - lo) * 0.25 else LEAST_PADDING
  }

  /** By a quarter of the extent on both sides, or by 0.00006 if that is more */
  predicate PaddedTo(lo: real, hi: real, from: real, to: real) {
    && lo - from == to - hi
    && lo - from >= 0.00006 && lo - from >= (hi - lo) / 4.0
    && (lo - from == 0.00006 || lo - from == (hi - lo) / 4.0)
  }

  lemma {:induction false} FlattenRings(rings: seq<seq<Position>>)
    ensures Flatten(AsPolygon(rings)) == AsRing(Flatten(rings))
  {
    if rings != [] {
      FlattenRings(rings[..|rings| - 1]);
      assert AsPolygon(rings)[..|rings| - 1] == AsPolygon(rings[..|rings| - 1]);
    }
  }

  lemma {:induction false} FlattenPolygons(polygons: seq<seq<seq<Position>>>)
    ensures Flatten(AsPolygons(polygons)) == AsPolygon(Flatten(polygons))
  {
    if polygons != [] {
      FlattenPolygons(polygons[..|polygons| - 1]);
      assert AsPolygons(polygons)[..|polygons| - 1] == AsPolygons(polygons[..|polygons| - 1]);
    }
  }

  lemma PointsMapped(geometry: Geometry<Position>)
    ensures Points(AsGeometry(geometry)) == AsRing(Points(geometry))
  {
    match geometry
    case Polygon(rings) => FlattenRings(rings);
    case MultiPolygon(polygons) =>
      FlattenPolygons(polygons);
      FlattenRings(Flatten(polygons));
    case Other =>
  }

  /** The box handed to the map service holds every point that PointInside can accept, so no acceptable
      candidate is lost by asking only for the box. A geometry without positions has no box. */
  method SearchBox(geometry: Geometry<Position>) returns (box: Option<Box>)
    requires !geometry.Other?
    ensures box.None? <==> Points(geometry) == []
    ensures forall lon: real, lat: real :: Contains(AsGeometry(geometry), lon, lat) ==>
              box.Some? && box.value.south < lat < box.value.north && box.value.west < lon < box.value.east
    ensures box.Some? ==>
              exists s, w, n, e ::
                && Span(Latitudes(Points(AsGeometry(geometry))), s, n)
                && Span(Longitudes(Points(AsGeometry(geometry))), w, e)
                && PaddedTo(s, n, box.value.south, box.value.north) && PaddedTo(w, e, box.value.west, box.value.east)
  {
    var pts := CollectPoints(geometry);
    PointsMapped(geometry);
    if |pts| == 0 {
      forall lon: real, lat: real ensures !Contains(AsGeometry(geometry), lon, lat) {
        if Contains(AsGeometry(geometry), lon, lat) {
          ContainsWithinBounds(AsGeometry(geometry), lon, lat, 1.0, 1.0, 0.0, 0.0);
        }
      }
      return None;
    }
    var south, west, north, east := Extents(AsRing(pts));
    ExtentsBound(AsRing(pts), south, west, north, east);
    var latPad := Padding(south.value, north.value);
    var lonPad := Padding(west.value, east.value);
    box := Some(Box(south.value - latPad, west.value - lonPad, north.value + latPad, east.value + lonPad));
    assert PaddedTo(south.value, north.value, box.value.south, box.value.north);
    assert PaddedTo(west.value, east.value, box.value.west, box.value.east);
    forall lon: real, lat: real | Contains(AsGeometry(geometry), lon, lat)
      ensures south.value <= lat < north.value && west.value <= lon < east.value
    {
      ContainsWithinBounds(AsGeometry(geometry), lon, lat, south.value, west.value, north.value, east.value);
    }
  }

  /** The extents of a nonempty list of finite positions are numbers, and bound it. */
  lemma ExtentsBound(pts: Ring, south: Bound, west: Bound, north: Bound, east: Bound)
    requires pts != [] && AllFinite(pts)
    requires Bounds(Latitudes(pts), south, north) && Bounds(Longitudes(pts), west, east)
    ensures south.At? && west.At? && north.At? && east.At?
    ensures Within(pts, south.value, west.value, north.value, east.value)
    ensures Span(Latitudes(pts), south.value, north.value) && Span(Longitudes(pts), west.value, east.value)
  {
    assert Latitudes(pts)[0] == pts[0].y && Longitudes(pts)[0] == pts[0].x;
    forall i | 0 <= i < |pts| ensures pts[i].y in Latitudes(pts) && pts[i].x in Longitudes(pts) {
      assert Latitudes(pts)[i] == pts[i].y && Longitudes(pts)[i] == pts[i].x;
    }
    assert None !in Latitudes(pts) by {
      forall i | 0 <= i < |pts| ensures Latitudes(pts)[i].Some? {
        assert pts[i] in pts;
      }
    }
    assert None !in Longitudes(pts) by {
      forall i | 0 <= i < |pts| ensures Longitudes(pts)[i].Some? {
        assert pts[i] in pts;
      }
    }
  }
}
