/** The buildings table: the sync that stores centres, and the search for the building that contains a
    point, whose query only reads buildings with a centre close to the point. */
module BuildingIndex {
  import opened Wrappers
  import opened Rings
  import opened RingGeometry
  import opened Polygons

  const VISIGEO := "CMC_VISIGEO"

  /** Half the width, in degrees, of the box of centres that the query reads */
  const DELTA := 0.003

  /** A row; geometry is None when the column is null or does not parse. */
  datatype Building = Building(
    source: string,
    featureId: string,
    geometry: Option<Geometry<Vertex>>,
    latitude: Option<real>,
    longitude: Option<real>,
    active: bool,
    deleted: bool)

  predicate Eligible(b: Building) {
    b.source == VISIGEO && !b.deleted && b.active
  }

  predicate CentreNear(b: Building, latitude: real, longitude: real) {
    && b.latitude.Some? && latitude - DELTA <= b.latitude.value <= latitude + DELTA
    && b.longitude.Some? && longitude - DELTA <= b.longitude.value <= longitude + DELTA
  }

  ghost predicate HoldsPoint(b: Building, latitude: real, longitude: real) {
    b.geometry.Some? && Contains(b.geometry.value, longitude, latitude)
  }

  /** What a search may return: an eligible building around the point; only those with a near centre when prefiltered */
  ghost predicate Hit(b: Building, prefiltered: bool, latitude: real, longitude: real) {
    Eligible(b) && (prefiltered ==> CentreNear(b, latitude, longitude)) && HoldsPoint(b, latitude, longitude)
  }

  /** found is the first hit among the rows, in the order the database returns them. */
  ghost predicate IsAnswer(rows: seq<Building>, prefiltered: bool, latitude: real, longitude: real,
      found: Option<Building>) {
    match found
    case None => forall b :: b in rows ==> !Hit(b, prefiltered, latitude, longitude)
    case Some(b) =>
      exists k :: 0 <= k < |rows| && rows[k] == b && Hit(b, prefiltered, latitude, longitude)
                  && forall m :: 0 <= m < k ==> !Hit(rows[m], prefiltered, latitude, longitude)
  }

  // ---- When the prefilter loses nothing ----

  /** The stored centre is the centre of the stored geometry. */
  ghost predicate CentreCurrent(b: Building) {
    b.geometry.Some? ==> IsCentre(b.geometry.value, Centre(b.latitude, b.longitude))
  }

  /** No two values are further apart than the box is wide. */
  ghost predicate Narrow(values: seq<Option<real>>) {
    forall a, b :: a in values && b in values ==> a.Some? && b.Some? && a.value - b.value <= 0.006
  }

  /** Finite positions that span at most 0.006 degrees each way */
  ghost predicate Compact(b: Building) {
    b.geometry.Some? ==> Narrow(Latitudes(Points(b.geometry.value))) && Narrow(Longitudes(Points(b.geometry.value)))
  }

  lemma NarrowSpan(values: seq<Option<real>>, m: Option<real>) returns (lo: real, hi: real)
    requires values != [] && Narrow(values) && Middle(values, m)
    ensures Span(values, lo, hi) && m == Some((lo + hi) / 2.0) && hi - lo <= 0.006
  {
    forall a | a in values ensures a.Some? {
    }
    lo, hi :| Span(values, lo, hi) && m.value == (lo + hi) / 2.0;
    assert Some(hi) in values && Some(lo) in values;
  }

  lemma HitsHaveNearCentre(b: Building, latitude: real, longitude: real)
    requires CentreCurrent(b) && Compact(b) && HoldsPoint(b, latitude, longitude)
    ensures CentreNear(b, latitude, longitude)
  {
    var pts := Points(b.geometry.value);
    if pts == [] {
      ContainsWithinBounds(b.geometry.value, longitude, latitude, 1.0, 1.0, 0.0, 0.0);
    } else {
      var south, north := NarrowSpan(Latitudes(pts), b.latitude);
      var west, east := NarrowSpan(Longitudes(pts), b.longitude);
      SpansBound(pts, south, west, north, east);
      ContainsWithinBounds(b.geometry.value, longitude, latitude, south, west, north, east);
    }
  }

  lemma SpansBound(pts: Ring, south: real, west: real, north: real, east: real)
    requires Span(Latitudes(pts), south, north) && Span(Longitudes(pts), west, east)
    ensures Within(pts, south, west, north, east)
  {
    forall v | v in pts ensures v.Finite() && south <= v.y.value <= north && west <= v.x.value <= east {
      var i :| 0 <= i < |pts| && pts[i] == v;
      assert Latitudes(pts)[i] == v.y && Longitudes(pts)[i] == v.x;
      assert v.y in Latitudes(pts) && v.x in Longitudes(pts);
    }
  }

  /** With current centres and compact buildings, the prefiltered search has exactly the answers of a scan of every
      building. */
  lemma PrefilterAgreesWithScan(rows: seq<Building>, latitude: real, longitude: real, found: Option<Building>)
    requires forall b :: b in rows && Eligible(b) ==> CentreCurrent(b) && Compact(b)
    ensures IsAnswer(rows, true, latitude, longitude, found) <==> IsAnswer(rows, false, latitude, longitude, found)
  {
    forall b | b in rows
      ensures Hit(b, true, latitude, longitude) == Hit(b, false, latitude, longitude)
    {
      if Hit(b, false, latitude, longitude) {
        HitsHaveNearCentre(b, latitude, longitude);
      }
    }
  }

  /** What the prefiltered search returns is an active building of the synced source that contains the point, with its
      centre at most 0.003 degrees away each way; it returns nothing only if there is no such building. */
  lemma AnswerIsNearby(rows: seq<Building>, latitude: real, longitude: real, found: Option<Building>)
    requires IsAnswer(rows, true, latitude, longitude, found)
    ensures forall b :: b in rows && Nearby(b, latitude, longitude) && HoldsPoint(b, latitude, longitude) ==>
              found.Some?
    ensures found.Some? ==>
              found.value in rows && Nearby(found.value, latitude, longitude)
                  && HoldsPoint(found.value, latitude, longitude)
  {
    forall b | b in rows ensures Hit(b, true, latitude, longitude)
                                 <==> Nearby(b, latitude, longitude) && HoldsPoint(b, latitude, longitude) {
    }
  }

  predicate Nearby(b: Building, latitude: real, longitude: real) {
    && b.source == "CMC_VISIGEO" && b.active && !b.deleted
    && b.latitude.Some? && -0.003 <= b.latitude.value - latitude <= 0.003
    && b.longitude.Some? && -0.003 <= b.longitude.value - longitude <= 0.003
  }

  // ---- The bound on the size cannot be relaxed ----

  function Corner(x: real, y: real): Vertex {
    Vertex(Some(x), Some(y))
  }

  function Rectangle(south: real, west: real, north: real, east: real): Ring {
    [Corner(west, south), Corner(east, south), Corner(east, north), Corner(west, north)]
  }

  lemma VerticalEdge(lon: real, lat: real, x: real, south: real, north: real)
    requires south < north
    ensures Crosses(lon, lat, Corner(x, south), Corner(x, north)) <==> south <= lat < north && lon < x
    ensures Crosses(lon, lat, Corner(x, north), Corner(x, south)) <==> south <= lat < north && lon < x
  {
    CrossesSymmetric(lon, lat, Corner(x, south), Corner(x, north));
    if south <= lat < north {
      MeetsWithinEndpoints(lat, Corner(x, south), Corner(x, north));
    }
  }

  /** A rectangle contains its southern and western sides, and not its northern and eastern ones. */
  lemma RectangleMeaning(lon: real, lat: real, south: real, west: real, north: real, east: real)
    requires south < north && west < east
    ensures Inside(lon, lat, Rectangle(south, west, north, east)) <==> south <= lat < north && west <= lon < east
  {
    var ring := Rectangle(south, west, north, east);
    InsideIsPathParity(lon, lat, ring);
    PathOfFour(lon, lat, ring[0], ring[1], ring[2], ring[3]);
    VerticalEdge(lon, lat, east, south, north);
    VerticalEdge(lon, lat, west, south, north);
    assert !Crosses(lon, lat, ring[1], ring[0]) && !Crosses(lon, lat, ring[3], ring[2]);
  }

  /** A rectangular building with a rectangular courtyard contains the rectangle without the courtyard. */
  lemma CourtyardMeaning(lon: real, lat: real, south: real, west: real, north: real, east: real,
                         s: real, w: real, n: real, e: real)
    requires south < north && west < east && s < n && w < e
    ensures Contains(Polygon([Rectangle(south, west, north, east), Rectangle(s, w, n, e)]), lon, lat)
            <==> && (south <= lat < north && west <= lon < east)
                 && !(s <= lat < n && w <= lon < e)
  {
    var (outer, inner) := (Rectangle(south, west, north, east), Rectangle(s, w, n, e));
    assert [outer] + [inner] == [outer, inner];
    ContainsOneRing(outer, lon, lat);
    ContainsWithHole([outer], inner, lon, lat);
    RectangleMeaning(lon, lat, south, west, north, east);
    RectangleMeaning(lon, lat, s, w, n, e);
  }

  /** Geocoding's positions have the longitude first. */
  lemma RectangleOfPositions(south: real, west: real, north: real, east: real)
    ensures AsRing([Position(west, south), Position(east, south), Position(east, north), Position(west, north)])
            == Rectangle(south, west, north, east)
    ensures Position(west, south).lon == west && Position(west, south).lat == south
  {
  }

  lemma PathOfFour(lon: real, lat: real, a: Vertex, b: Vertex, c: Vertex, d: Vertex)
    ensures PathParity(lon, lat, [a, b, c, d]) <==>
            (Crosses(lon, lat, b, a) != (Crosses(lon, lat, c, b) != Crosses(lon, lat, d, c)))
  {
    PathParityConcat(lon, lat, [a, b], [c, d]);
    assert [a, b] + [c, d] == [a, b, c, d];
    assert [a, b][1..] == [b] && [c, d][1..] == [d];
  }

  function RectangularBuilding(south: real, west: real, north: real, east: real): Building {
    Building(VISIGEO, "1", Some(Polygon([Rectangle(south, west, north, east)])),
             Some((south + north) / 2.0), Some((west + east) / 2.0), true, false)
  }

  lemma FlattenSingle<T>(part: seq<T>)
    ensures Flatten([part]) == part
  {
    assert [part][..0] == [];
  }

  lemma SpanOfEnds(values: seq<Option<real>>, lo: real, hi: real)
    requires Some(lo) in values && Some(hi) in values && lo <= hi
    requires forall v :: v in values ==> v == Some(lo) || v == Some(hi)
    ensures Middle(values, Some((lo + hi) / 2.0))
  {
    assert Span(values, lo, hi);
  }

  lemma RectangleCentre(south: real, west: real, north: real, east: real)
    requires south < north && west < east
    ensures CentreCurrent(RectangularBuilding(south, west, north, east))
  {
    var ring := Rectangle(south, west, north, east);
    FlattenSingle(ring);
    RectangleSpans(south, west, north, east);
    assert Points(RectangularBuilding(south, west, north, east).geometry.value) == ring;
  }

  lemma RectangleSpans(south: real, west: real, north: real, east: real)
    requires south < north && west < east
    ensures var ring := Rectangle(south, west, north, east);
            Middle(Latitudes(ring), Some((south + north) / 2.0)) && Middle(Longitudes(ring), Some((west + east) / 2.0))
  {
    var ring := Rectangle(south, west, north, east);
    var ys := [Some(south), Some(south), Some(north), Some(north)];
    var xs := [Some(west), Some(east), Some(east), Some(west)];
    assert Latitudes(ring) == ys && Longitudes(ring) == xs;
    assert ys[0] == Some(south) && ys[2] == Some(north) && xs[0] == Some(west) && xs[1] == Some(east);
    SpanOfEnds(ys, south, north);
    SpanOfEnds(xs, west, east);
  }

  /** For a rectangular building the prefilter loses no point if and only if both sides are at most 0.006 degrees. */
  lemma RectangleFoundEverywhereIffSmall(south: real, west: real, north: real, east: real)
    requires south < north && west < east
    ensures (forall lat: real, lon: real ::
               Hit(RectangularBuilding(south, west, north, east), false, lat, lon)
               ==> Hit(RectangularBuilding(south, west, north, east), true, lat, lon))
            <==> north - south <= 0.006 && east - west <= 0.006
  {
    var b := RectangularBuilding(south, west, north, east);
    forall lat: real, lon: real
      ensures HoldsPoint(b, lat, lon) <==> south <= lat < north && west <= lon < east
    {
      RectangleMeaning(lon, lat, south, west, north, east);
    }
    if !(north - south <= 0.006 && east - west <= 0.006) {
      assert HoldsPoint(b, south, west) && !CentreNear(b, south, west);
      assert Hit(b, false, south, west) && !Hit(b, true, south, west);
    }
  }

  // ---- The query and the search ----

  /** The rows that the query returns */
  function Candidates(rows: seq<Building>, latitude: real, longitude: real): seq<Building> {
    if rows == [] then []
    else
      (if Eligible(rows[0]) && CentreNear(rows[0], latitude, longitude) then [rows[0]] else [])
      + Candidates(rows[1..], latitude, longitude)
  }

  /** Scanning the candidates answers the prefiltered search. */
  lemma {:induction false} CandidatesAnswer(rows: seq<Building>, latitude: real, longitude: real,
      found: Option<Building>)
    requires IsAnswer(Candidates(rows, latitude, longitude), true, latitude, longitude, found)
    ensures IsAnswer(rows, true, latitude, longitude, found)
  {
    if rows != [] {
      var first, rest := rows[0], Candidates(rows[1..], latitude, longitude);
      assert rows == [first] + rows[1..];
      if Hit(first, true, latitude, longitude) {
        FirstIsAnswer(first, rest, rows[1..], latitude, longitude, found);
      } else {
        if Eligible(first) && CentreNear(first, latitude, longitude) {
          AnswerWithoutFirst(first, rest, latitude, longitude, found);
        } else {
          assert Candidates(rows, latitude, longitude) == rest;
        }
        CandidatesAnswer(rows[1..], latitude, longitude, found);
        AnswerAfterMiss(first, rows[1..], latitude, longitude, found);
      }
    }
  }

  lemma FirstIsAnswer(
    first: Building, rest: seq<Building>, others: seq<Building>, latitude: real, longitude: real,
    found: Option<Building>)
    requires Hit(first, true, latitude, longitude)
    requires IsAnswer([first] + rest, true, latitude, longitude, found)
    ensures IsAnswer([first] + others, true, latitude, longitude, found)
  {
    assert ([first] + rest)[0] == first && ([first] + others)[0] == first;
    assert found == Some(first);
  }

  lemma AnswerWithoutFirst(first: Building, rest: seq<Building>, latitude: real, longitude: real,
      found: Option<Building>)
    requires !Hit(first, true, latitude, longitude)
    requires IsAnswer([first] + rest, true, latitude, longitude, found)
    ensures IsAnswer(rest, true, latitude, longitude, found)
  {
    var all := [first] + rest;
    if found.Some? {
      var k :| 0 <= k < |all| && all[k] == found.value && Hit(found.value, true, latitude, longitude)
               && forall m :: 0 <= m < k ==> !Hit(all[m], true, latitude, longitude);
      assert rest[k - 1] == found.value;
      forall m | 0 <= m < k - 1 ensures !Hit(rest[m], true, latitude, longitude) {
        assert rest[m] == all[m + 1];
      }
    } else {
      forall b | b in rest ensures !Hit(b, true, latitude, longitude) {
        assert b in all;
      }
    }
  }

  lemma AnswerAfterMiss(first: Building, rest: seq<Building>, latitude: real, longitude: real, found: Option<Building>)
    requires !Hit(first, true, latitude, longitude)
    requires IsAnswer(rest, true, latitude, longitude, found)
    ensures IsAnswer([first] + rest, true, latitude, longitude, found)
  {
    var all := [first] + rest;
    if found.Some? {
      var k :| 0 <= k < |rest| && rest[k] == found.value && Hit(found.value, true, latitude, longitude)
               && forall m :: 0 <= m < k ==> !Hit(rest[m], true, latitude, longitude);
      assert all[k + 1] == found.value;
      forall m | 0 <= m < k + 1 ensures !Hit(all[m], true, latitude, longitude) {
        assert m > 0 ==> all[m] == rest[m - 1];
      }
    }
  }

  // ---- The sync ----

  datatype Feature = Feature(id: string, geometry: Geometry<Vertex>)

  /** Features without an id, with another type of geometry or without positions are skipped. */
  predicate Usable(f: Feature) {
    f.id != "" && !f.geometry.Other? && Points(f.geometry) != []
  }

  datatype Outcome = Inserted | Updated | Skipped

  predicate Matches(b: Building, id: string) {
    b.source == VISIGEO && b.featureId == id
  }

  /** The table as the sync leaves it; (source, featureId) is unique among its rows. */
  class BuildingTable {
    var rows: seq<Building>

    ghost predicate Valid()
      reads this
    {
      && (forall b :: b in rows && b.source == VISIGEO ==> CentreCurrent(b))
      && (forall i, j :: 0 <= i < j < |rows| && rows[i].source == VISIGEO ==> !Matches(rows[j], rows[i].featureId))
    }

    constructor ()
      ensures Valid() && rows == []
    {
      rows := [];
    }

    method Find(id: string) returns (k: nat)
      ensures k <= |rows|
      ensures k < |rows| ==> Matches(rows[k], id)
      ensures forall m :: 0 <= m < k ==> !Matches(rows[m], id)
    {
      k := 0;
      while k < |rows| && !Matches(rows[k], id)
        invariant k <= |rows|
        invariant forall m :: 0 <= m < k ==> !Matches(rows[m], id)
      {
        k := k + 1;
      }
    }

    /** One turn of the sync's loop: skip the feature, update its row, or insert one. */
    method SyncFeature(f: Feature) returns (outcome: Outcome)
      requires Valid()
      modifies this
      ensures Valid()
      ensures outcome.Skipped? <==> f.id == "" || f.geometry.Other? || Points(f.geometry) == []
      ensures outcome.Skipped? ==> rows == old(rows)
      ensures outcome.Updated? <==> Usable(f) && exists b :: b in old(rows) && Matches(b, f.id)
      ensures |rows| == |old(rows)| + if outcome.Inserted? then 1 else 0
      ensures forall k :: 0 <= k < |old(rows)| ==>
                if Matches(old(rows)[k], f.id) && Usable(f) then Matches(rows[k], f.id) else rows[k] == old(rows)[k]
      ensures Usable(f) ==> exists b :: b in rows && StoresFeature(b, f)
    {
      if f.id == "" || f.geometry.Other? {
        return Skipped;
      }
      var center := GeometryCenter(f.geometry);
      if center.None? {
        return Skipped;
      }
      var k := Find(f.id);
      ghost var before := rows;
      if k < |rows| {
        assert rows[k] in before;
        rows := rows[k := rows[k].(geometry := Some(f.geometry), latitude := center.value.latitude,
                                   longitude := center.value.longitude, active := true)];
        outcome := Updated;
      } else {
        rows := rows + [Building(VISIGEO, f.id, Some(f.geometry), center.value.latitude,
                                 center.value.longitude, true, false)];
        outcome := Inserted;
      }
      assert StoresFeature(rows[k], f);
      forall b | b in rows && b.source == VISIGEO ensures CentreCurrent(b) {
        assert b in before || b == rows[k];
      }
    }

    /** Stores each usable feature with the centre of its geometry; a later feature with the same id wins,
        rows of other ids stay as they are, and no row is removed. */
    method Sync(features: seq<Feature>) returns (inserted: nat, updated: nat, skipped: nat)
      requires Valid()
      modifies this
      ensures Valid()
      ensures inserted + updated + skipped == |features|
      ensures |rows| == |old(rows)| + inserted
      ensures KeepsOthers(old(rows), rows, features)
      ensures ReflectsLast(rows, features)
    {
      inserted, updated, skipped := 0, 0, 0;
      for n := 0 to |features|
        invariant Valid()
        invariant inserted + updated + skipped == n
        invariant |rows| == |old(rows)| + inserted
        invariant KeepsOthers(old(rows), rows, features[..n])
        invariant ReflectsLast(rows, features[..n])
      {
        ghost var before := rows;
        var outcome := SyncFeature(features[n]);
        SyncStep(old(rows), before, rows, features[..n], features[n]);
        assert features[..n + 1] == features[..n] + [features[n]];
        match outcome
        case Inserted => inserted := inserted + 1;
        case Updated => updated := updated + 1;
        case Skipped => skipped := skipped + 1;
      }
      assert features[..|features|] == features;
    }

    /** building-resolution's search: query the near centres, return the first building that contains the point. */
    method FindContainingBuilding(latitude: real, longitude: real) returns (found: Option<Building>)
      ensures IsAnswer(rows, true, latitude, longitude, found)
    {
      var candidates := Candidates(rows, latitude, longitude);
      CandidatesPass(rows, latitude, longitude);
      for k := 0 to |candidates|
        invariant forall m :: 0 <= m < k ==> !Hit(candidates[m], true, latitude, longitude)
      {
        if candidates[k].geometry.Some? {
          var inside := GeometryContainsPoint(candidates[k].geometry.value, longitude, latitude);
          if inside {
            CandidatesAnswer(rows, latitude, longitude, Some(candidates[k]));
            return Some(candidates[k]);
          }
        }
      }
      CandidatesAnswer(rows, latitude, longitude, None);
      found := None;
    }

    /** After any syncs, with every building compact, the search finds the building a scan of all would find. */
    method FindLikeScan(latitude: real, longitude: real) returns (found: Option<Building>)
      requires Valid()
      requires forall b :: b in rows && Eligible(b) ==> Compact(b)
      ensures IsAnswer(rows, false, latitude, longitude, found)
    {
      found := FindContainingBuilding(latitude, longitude);
      PrefilterAgreesWithScan(rows, latitude, longitude, found);
    }
  }

  /** No later usable feature carries the same id. */
  ghost predicate IsLast(features: seq<Feature>, k: nat)
    requires k < |features|
  {
    forall m :: k < m < |features| && Usable(features[m]) ==> features[m].id != features[k].id
  }

  /** Rows that no usable feature names are as before. */
  ghost predicate KeepsOthers(before: seq<Building>, after: seq<Building>, features: seq<Feature>) {
    && |before| <= |after|
    && forall k :: 0 <= k < |before| && (forall f :: f in features && Usable(f) ==> !Matches(before[k], f.id))
         ==> after[k] == before[k]
  }

  /** The last usable feature of each id is what its row stores. */
  ghost predicate ReflectsLast(rows: seq<Building>, features: seq<Feature>) {
    forall k :: 0 <= k < |features| && Usable(features[k]) && IsLast(features, k) ==>
      exists b :: b in rows && StoresFeature(b, features[k])
  }

  lemma SyncStep(start: seq<Building>, before: seq<Building>, after: seq<Building>, done: seq<Feature>, f: Feature)
    requires KeepsOthers(start, before, done) && ReflectsLast(before, done)
    requires |before| <= |after|
    requires forall k :: 0 <= k < |before| && !(Matches(before[k], f.id) && Usable(f)) ==> after[k] == before[k]
    requires Usable(f) ==> exists b :: b in after && StoresFeature(b, f)
    ensures KeepsOthers(start, after, done + [f]) && ReflectsLast(after, done + [f])
  {
    var all := done + [f];
    assert f in all;
    forall k | 0 <= k < |start| && (forall g :: g in all && Usable(g) ==> !Matches(start[k], g.id))
      ensures after[k] == start[k]
    {
      forall g | g in done && Usable(g) ensures !Matches(start[k], g.id) {
        assert g in all;
      }
      assert before[k] == start[k];
    }
    forall k | 0 <= k < |all| && Usable(all[k]) && IsLast(all, k)
      ensures exists b :: b in after && StoresFeature(b, all[k])
    {
      if k < |done| {
        assert all[|done|] == f;
        forall m | k < m < |done| && Usable(done[m]) ensures done[m].id != done[k].id {
          assert all[m] == done[m];
        }
        var b :| b in before && StoresFeature(b, done[k]);
        var i :| 0 <= i < |before| && before[i] == b;
        assert after[i] == before[i];
      }
    }
  }

  ghost predicate StoresFeature(b: Building, f: Feature) {
    Matches(b, f.id) && b.active && b.geometry == Some(f.geometry) && CentreCurrent(b)
  }

  /** The row that stores a feature has its id and geometry, is active, and has the middle of its extents as its
      centre. */
  lemma StoredFeature(b: Building, f: Feature)
    requires StoresFeature(b, f)
    ensures b.source == "CMC_VISIGEO" && b.featureId == f.id && b.active && b.geometry == Some(f.geometry)
    ensures IsCentre(f.geometry, Centre(b.latitude, b.longitude))
  {
  }

  lemma CandidatesPass(rows: seq<Building>, latitude: real, longitude: real)
    ensures forall b :: b in Candidates(rows, latitude, longitude) ==>
              b in rows && Eligible(b) && CentreNear(b, latitude, longitude)
  {
  }
}
