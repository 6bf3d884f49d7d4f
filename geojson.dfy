/**
  The GeoJSON documents that `bbox_to_GeoJSON` and `point_to_GeoJSON` build in memory:
  a FeatureCollection with a named CRS (the 2008 GeoJSON `"crs": {"type": "name", ...}`
  member) holding one Feature whose geometry is a Polygon or a Point.
 */
module GeoJson {
  import opened Wrappers
  import opened PostGis

  /** `{"type": "name", "properties": {"name": name}}`. */
  datatype Crs = NamedCrs(name: string)

  /** `{"type": "Polygon", "coordinates": rings}` or `{"type": "Point", "coordinates": positions}`. */
  datatype Geometry =
    | Polygon(rings: seq<seq<Position>>)
    | Point(positions: seq<Position>)

  datatype Feature = Feature(geometry: Geometry)

  datatype FeatureCollection = FeatureCollection(crs: Crs, features: seq<Feature>)

  const EpsgUrnPrefix: string := "urn:ogc:def:crs:EPSG::"

  /** The named CRS for an EPSG code, `f"urn:ogc:def:crs:EPSG::{crs}"`. */
  function EpsgCrs(code: string): Crs {
    NamedCrs(EpsgUrnPrefix + code)
  }

  /** The collection built from the corners `[x0, y0, x1, y1]`. */
  function BoxCollection(c: Corners, crs: string): FeatureCollection {
    var ring := [Position(c.minX, c.minY), Position(c.maxX, c.minY), Position(c.maxX, c.maxY),
                 Position(c.minX, c.maxY), Position(c.minX, c.minY)];
    FeatureCollection(EpsgCrs(crs), [Feature(Polygon([ring]))])
  }

  /** The collection built from `[lng, lat]`; the position is nested one level, `[[lng, lat]]`. */
  function PointCollection(p: Position, crs: string): FeatureCollection {
    FeatureCollection(EpsgCrs(crs), [Feature(Point([p]))])
  }

  /** `bbox_to_GeoJSON` without the optional file write. */
  method BboxToGeoJson(text: string, crs: string, num: NumParser)
    returns (r: Result<FeatureCollection, GeometryError>)
    ensures ParseBox(text, num).Failure? ==> r == Failure(ParseBox(text, num).error)
    ensures ParseBox(text, num).Success? ==> r == Success(BoxCollection(ParseBox(text, num).value, crs))
  {
    var corners := BboxToCorners(text, num);
    if corners.Failure? {
      return Failure(corners.error);
    }
    r := Success(BoxCollection(corners.value, crs));
  }

  /** `point_to_GeoJSON` without the optional file write. */
  function PointToGeoJson(text: string, crs: string, num: NumParser): Result<FeatureCollection, GeometryError> {
    match PointToLngLat(text, num)
    case Failure(e) => Failure(e)
    case Success(p) => Success(PointCollection(p, crs))
  }

  /**
    The closure and length conditions on a linear ring in section 3.1.6 of RFC 7946: four or more
    positions, first equal to last. The winding rule of that section is `ShoelaceSum` below.
   */
  predicate IsLinearRing(ring: seq<Position>) {
    |ring| >= 4 && ring[0] == ring[|ring| - 1]
  }

  /** The corners a box ring was drawn from: its first and its third position. */
  function RingCorners(ring: seq<Position>): Corners
    requires |ring| >= 3
  {
    Corners(ring[0].lng, ring[0].lat, ring[2].lng, ring[2].lat)
  }

  /** Twice the signed area enclosed by a ring (the shoelace formula); positive when the ring runs counterclockwise. */
  function ShoelaceSum(ring: seq<Position>): real
    decreases |ring|
  {
    if |ring| < 2 then 0.0
    else ring[0].lng * ring[1].lat - ring[1].lng * ring[0].lat + ShoelaceSum(ring[1..])
  }

  /** Two positions joined by an edge parallel to an axis. */
  predicate AxisAligned(p: Position, q: Position) {
    p.lng == q.lng || p.lat == q.lat
  }

  /**
    The box collection holds one Polygon feature with one closed ring of exactly five
    positions, going from the first corner along the bottom edge first; each edge is parallel to an axis; the ring visits exactly the four corners of
    the box; the corners can be read back from it; the CRS is named by its EPSG URN.
   */
  lemma BoxCollectionShape(c: Corners, crs: string)
    ensures var fc := BoxCollection(c, crs);
      && fc.crs.name == "urn:ogc:def:crs:EPSG::" + crs
      && |fc.features| == 1 && fc.features[0].geometry.Polygon?
      && |fc.features[0].geometry.rings| == 1
      && var ring := fc.features[0].geometry.rings[0];
         && |ring| == 5 && IsLinearRing(ring)
         && ring[1] == Position(c.maxX, c.minY)
         && (forall k :: 0 <= k < 4 ==> AxisAligned(ring[k], ring[k + 1]))
         && (set k | 0 <= k < 5 :: ring[k])
            == {Position(c.minX, c.minY), Position(c.maxX, c.minY),
                Position(c.maxX, c.maxY), Position(c.minX, c.maxY)}
         && RingCorners(ring) == c
  {
    var ring := BoxCollection(c, crs).features[0].geometry.rings[0];
    var corners := {Position(c.minX, c.minY), Position(c.maxX, c.minY),
                    Position(c.maxX, c.maxY), Position(c.minX, c.maxY)};
    assert forall k :: 0 <= k < 5 ==> ring[k] in corners;
    assert ring[0] == Position(c.minX, c.minY) && ring[1] == Position(c.maxX, c.minY);
    assert ring[2] == Position(c.maxX, c.maxY) && ring[3] == Position(c.minX, c.maxY);
  }

  /**
    The box ring encloses twice the area `2 * (maxX - minX) * (maxY - minY)`, signed, so it runs
    counterclockwise, as the right-hand rule of section 3.1.6 of RFC 7946 asks of an exterior
    ring, exactly when the corners are strictly lower-left then upper-right or strictly the
    reverse, and clockwise when the box is written with only one axis reversed.
   */
  lemma BoxRingWinding(c: Corners, crs: string)
    ensures var ring := BoxCollection(c, crs).features[0].geometry.rings[0];
      ShoelaceSum(ring) == 2.0 * (c.maxX - c.minX) * (c.maxY - c.minY)
    ensures var ring := BoxCollection(c, crs).features[0].geometry.rings[0];
      ShoelaceSum(ring) > 0.0 <==> (c.minX < c.maxX && c.minY < c.maxY) || (c.minX > c.maxX && c.minY > c.maxY)
  {
    var x0, y0, x1, y1 := c.minX, c.minY, c.maxX, c.maxY;
    var ring := BoxCollection(c, crs).features[0].geometry.rings[0];
    assert ring[1..][1..][1..][1..] == [Position(x0, y0)];
    assert ShoelaceSum(ring[1..][1..][1..]) == x0 * y0 - x0 * y1;
    assert ShoelaceSum(ring[1..][1..]) == x1 * y1 - x0 * y1 + (x0 * y0 - x0 * y1);
    assert ShoelaceSum(ring[1..]) == x1 * y1 - x1 * y0 + (x1 * y1 - x0 * y1 + (x0 * y0 - x0 * y1));
    assert ShoelaceSum(ring) == x0 * y0 - x1 * y0 + (x1 * y1 - x1 * y0 + (x1 * y1 - x0 * y1 + (x0 * y0 - x0 * y1)));
    assert ShoelaceSum(ring) == 2.0 * (x1 - x0) * (y1 - y0);
    ProductPositiveIff(x1 - x0, y1 - y0);
  }

  /** A product is positive exactly when both factors are positive or both are negative. */
  lemma ProductPositiveIff(a: real, b: real)
    ensures 2.0 * a * b > 0.0 <==> (a > 0.0 && b > 0.0) || (a < 0.0 && b < 0.0)
  {
    if a > 0.0 && b < 0.0 {
      assert a * b < 0.0;
    } else if a < 0.0 && b > 0.0 {
      assert (-a) * b > 0.0;
    }
  }

  /** The point collection holds one Point feature whose coordinates are one nested position. */
  lemma PointCollectionShape(p: Position, crs: string)
    ensures var fc := PointCollection(p, crs);
      && fc.crs.name == "urn:ogc:def:crs:EPSG::" + crs
      && |fc.features| == 1 && fc.features[0].geometry.Point?
      && fc.features[0].geometry.positions == [Position(p.lng, p.lat)]
  {
  }

  /** From `BOX(a b,c d)` text to GeoJSON and back: the ring's corners are `[a, b, c, d]`. */
  lemma BoxGeoJsonRoundTrip(a: string, b: string, c: string, d: string, crs: string, num: NumParser)
    requires IsNumberToken(a) && IsNumberToken(b) && IsNumberToken(c) && IsNumberToken(d)
    requires num(a).Some? && num(b).Some? && num(c).Some? && num(d).Some?
    ensures ParseBox(FormatBox(a, b, c, d), num).Success?
    ensures var fc := BoxCollection(ParseBox(FormatBox(a, b, c, d), num).value, crs);
      RingCorners(fc.features[0].geometry.rings[0])
        == Corners(num(a).value, num(b).value, num(c).value, num(d).value)
  {
    BoxRoundTrip(a, b, c, d, num);
    BoxCollectionShape(ParseBox(FormatBox(a, b, c, d), num).value, crs);
  }

  /** From `POINT(a b)` text to GeoJSON: the single position is `[a, b]`. */
  lemma PointGeoJsonRoundTrip(a: string, b: string, crs: string, num: NumParser)
    requires IsNumberToken(a) && IsNumberToken(b)
    requires num(a).Some? && num(b).Some?
    ensures PointToGeoJson(FormatPoint(a, b), crs, num).Success?
    ensures PointToGeoJson(FormatPoint(a, b), crs, num).value.features[0].geometry.positions
         == [Position(num(a).value, num(b).value)]
  {
    PointRoundTrip(a, b, num);
  }
}
