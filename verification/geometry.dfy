/**
 * Planar primitives over exact reals: longitudes on a circle, the orientation
 * of three points, segment intersection, coordinate validation.  A point is a
 * (longitude, latitude) pair, longitude playing the part of x.
 */
module Geometry {
  import opened Wrappers

  datatype Point = Point(lon: real, lat: real)

  datatype Segment = Segment(a: Point, b: Point)
  {
    /** The same segment walked the other way. */
    function Reversed(): Segment { Segment(b, a) }
  }

  /** A box with its west, south, east and north bounds, as the dictionaries of the source hold them. */
  datatype Box = Box(w: real, s: real, e: real, n: real)

  /** The reasons a coordinate or a polygon is refused. */
  datatype GeoError =
    | LongitudeOutOfRange(lon: real)
    | LatitudeOutOfRange(lat: real)
    | TooFewPoints(count: nat)
    | NearPole(lat: real)

  /** `p` lies in `b`, boundary included. */
  predicate InBox(p: Point, b: Box)
  {
    b.w <= p.lon <= b.e && b.s <= p.lat <= b.n
  }

  /** The whole legal range of coordinates. */
  const World: Box := Box(-180.0, -90.0, 180.0, 90.0)

  /**
   * Strict validation: longitude is checked before latitude, and the first
   * out-of-range value is reported.
   */
  function Validate(lon: real, lat: real): (r: Outcome<GeoError>)
    ensures r.Pass? <==> InBox(Point(lon, lat), World)
    ensures r.Fail? && r.error.LongitudeOutOfRange? ==> r.error.lon == lon && !(World.w <= lon <= World.e)
    ensures r.Fail? && r.error.LatitudeOutOfRange? ==> r.error.lat == lat && World.w <= lon <= World.e
    ensures r.Fail? ==> r.error.LongitudeOutOfRange? || r.error.LatitudeOutOfRange?
  {
    if lon < -180.0 || lon > 180.0 then Fail(LongitudeOutOfRange(lon))
    else if lat < -90.0 || lat > 90.0 then Fail(LatitudeOutOfRange(lat))
    else Pass
  }

  /**
   * `lon1` lies less than half a turn east of `lon0`, both shifted into [0, 360]
   * first; going past the antimeridian is allowed.
   */
  predicate IsWest(lon0: real, lon1: real)
  {
    var c0, c1 := lon0 + 180.0, lon1 + 180.0;
    (c0 < c1 && c1 - c0 < 180.0) || (c0 > c1 && c1 + 360.0 - c0 < 180.0)
  }

  /** The distance travelled eastwards from `lon0` to `lon1`, for inputs less than a full turn apart. */
  function EastwardGap(lon0: real, lon1: real): (g: real)
    requires -360.0 < lon1 - lon0 < 360.0
    ensures 0.0 <= g < 360.0
    ensures g == lon1 - lon0 || g == lon1 - lon0 + 360.0
  {
    if lon0 <= lon1 then lon1 - lon0 else lon1 - lon0 + 360.0
  }

  /** `IsWest` compared against the eastward gap: strictly between none and half a turn. */
  lemma IsWestGap(lon0: real, lon1: real)
    requires -360.0 < lon1 - lon0 < 360.0
    ensures IsWest(lon0, lon1) <==> 0.0 < EastwardGap(lon0, lon1) < 180.0
  {
  }

  /** No longitude is west of itself, and two longitudes are never west of each other. */
  lemma IsWestAsymmetric(lon0: real, lon1: real)
    ensures !IsWest(lon0, lon0)
    ensures !(IsWest(lon0, lon1) && IsWest(lon1, lon0))
  {
  }

  /** Two distinct longitudes that are not antipodal are ordered one way or the other. */
  lemma IsWestTotal(lon0: real, lon1: real)
    requires -360.0 < lon1 - lon0 < 360.0
    requires lon0 != lon1 && lon1 - lon0 != 180.0 && lon0 - lon1 != 180.0
    ensures IsWest(lon0, lon1) || IsWest(lon1, lon0)
  {
  }

  /** The comparison is not periodic: 180 and -180 name one meridian but compare as different ones. */
  lemma IsWestSeam()
    ensures IsWest(180.0, -180.0)
    ensures !IsWest(-180.0, -180.0)
  {
  }

  lemma IsWestExamples()
    ensures IsWest(1.0, 2.0) && IsWest(1.0, 180.0) && !IsWest(1.0, 181.0) && IsWest(2.0, 181.0)
  {
  }

  /** Twice the signed area of the triangle a, b, c: positive when c lies left of the ray from a through b. */
  function Ccw(a: Point, b: Point, c: Point): (r: real)
  {
    (c.lat - a.lat) * (b.lon - a.lon) - (b.lat - a.lat) * (c.lon - a.lon)
  }

  /** The orientation is unchanged by rotating its arguments and negated by swapping two of them. */
  lemma CcwSymmetries(a: Point, b: Point, c: Point)
    ensures Ccw(a, b, c) == Ccw(b, c, a) == Ccw(c, a, b)
    ensures Ccw(a, c, b) == -Ccw(a, b, c)
  {
  }

  /** `q` lies strictly between `p` and `r` in longitude or in latitude. */
  predicate Within(p: Point, q: Point, r: Point)
  {
    p.lon < q.lon < r.lon || r.lon < q.lon < p.lon || p.lat < q.lat < r.lat || r.lat < q.lat < p.lat
  }

  /**
   * The source's segment test: an endpoint collinear with the other segment and
   * strictly inside its extent gives true at once, otherwise the endpoints of
   * each segment must fall on different sides of the other, a zero orientation
   * counting as "not left".
   */
  predicate Intersects(l1: Segment, l2: Segment)
  {
    var sl1 := Ccw(l1.a, l2.a, l2.b);
    if sl1 == 0.0 && Within(l2.a, l1.a, l2.b) then true
    else
      var sl2 := Ccw(l1.b, l2.a, l2.b);
      if sl2 == 0.0 && Within(l2.a, l1.b, l2.b) then true
      else
        var sl3 := Ccw(l1.a, l1.b, l2.a);
        if sl3 == 0.0 && Within(l1.a, l2.a, l1.b) then true
        else
          var sl4 := Ccw(l1.a, l1.b, l2.b);
          if sl4 == 0.0 && Within(l1.a, l2.b, l1.b) then true
          else (sl1 > 0.0) != (sl2 > 0.0) && (sl3 > 0.0) != (sl4 > 0.0)
  }

  /** `q` is on the line through `s` and strictly inside the extent of `s`. */
  predicate OnSegment(q: Point, s: Segment)
  {
    Ccw(q, s.a, s.b) == 0.0 && Within(s.a, q, s.b)
  }

  /** Some endpoint of one segment lies on the other. */
  predicate Touching(l1: Segment, l2: Segment)
  {
    OnSegment(l1.a, l2) || OnSegment(l1.b, l2) || OnSegment(l2.a, l1) || OnSegment(l2.b, l1)
  }

  /** `p` and `q` lie strictly on opposite sides of the line through `s`. */
  predicate OppositeSides(p: Point, q: Point, s: Segment)
  {
    Ccw(p, s.a, s.b) * Ccw(q, s.a, s.b) < 0.0
  }

  /** The segments cross at a point interior to both. */
  predicate ProperCrossing(l1: Segment, l2: Segment)
  {
    OppositeSides(l1.a, l1.b, l2) && OppositeSides(l2.a, l2.b, l1)
  }

  /** No endpoint is collinear with the other segment. */
  predicate GeneralPosition(l1: Segment, l2: Segment)
  {
    Ccw(l1.a, l2.a, l2.b) != 0.0 && Ccw(l1.b, l2.a, l2.b) != 0.0 &&
    Ccw(l2.a, l1.a, l1.b) != 0.0 && Ccw(l2.b, l1.a, l1.b) != 0.0
  }

  lemma OnSegmentReversed(q: Point, s: Segment)
    ensures OnSegment(q, s.Reversed()) <==> OnSegment(q, s)
  {
    CcwSymmetries(q, s.a, s.b);
  }

  /** An endpoint lying on the other segment makes the test succeed. */
  lemma IntersectsWhenTouching(l1: Segment, l2: Segment)
    requires Touching(l1, l2)
    ensures Intersects(l1, l2)
  {
    CcwSymmetries(l2.a, l1.a, l1.b);
    CcwSymmetries(l2.b, l1.a, l1.b);
  }

  /** Touching does not depend on the order or the direction of the segments. */
  lemma TouchingSymmetric(l1: Segment, l2: Segment)
    ensures Touching(l1, l2) <==> Touching(l2, l1)
    ensures Touching(l1, l2) <==> Touching(l1.Reversed(), l2)
    ensures Touching(l1, l2) <==> Touching(l1, l2.Reversed())
  {
    OnSegmentReversed(l2.a, l1);
    OnSegmentReversed(l2.b, l1);
    OnSegmentReversed(l1.a, l2);
    OnSegmentReversed(l1.b, l2);
  }

  /** Exchanging the two segments never changes the answer. */
  lemma IntersectsSwap(l1: Segment, l2: Segment)
    ensures Intersects(l1, l2) <==> Intersects(l2, l1)
  {
    CcwSymmetries(l2.a, l1.a, l1.b);
    CcwSymmetries(l2.b, l1.a, l1.b);
    CcwSymmetries(l1.a, l2.a, l2.b);
    CcwSymmetries(l1.b, l2.a, l2.b);
  }

  /** With no collinear endpoint, the test is exactly a proper crossing. */
  lemma IntersectsGeneral(l1: Segment, l2: Segment)
    requires GeneralPosition(l1, l2)
    ensures Intersects(l1, l2) <==> ProperCrossing(l1, l2)
  {
    CcwSymmetries(l2.a, l1.a, l1.b);
    CcwSymmetries(l2.b, l1.a, l1.b);
    var sl1, sl2 := Ccw(l1.a, l2.a, l2.b), Ccw(l1.b, l2.a, l2.b);
    var sl3, sl4 := Ccw(l1.a, l1.b, l2.a), Ccw(l1.a, l1.b, l2.b);
    SignOfProduct(sl1, sl2);
    SignOfProduct(sl3, sl4);
  }

  /** Two nonzero reals have a negative product exactly when their signs differ. */
  lemma SignOfProduct(x: real, y: real)
    requires x != 0.0 && y != 0.0
    ensures x * y < 0.0 <==> (x > 0.0) != (y > 0.0)
  {
    if x > 0.0 && y < 0.0 {
      assert x * y == -(x * -y);
    } else if x < 0.0 && y > 0.0 {
      assert x * y == -(-x * y);
    } else if x < 0.0 && y < 0.0 {
      assert x * y == -x * -y;
    }
  }

  /** All four endpoints lie on one line. */
  predicate Collinear(l1: Segment, l2: Segment)
  {
    Ccw(l1.a, l2.a, l2.b) == 0.0 && Ccw(l1.b, l2.a, l2.b) == 0.0 &&
    Ccw(l2.a, l1.a, l1.b) == 0.0 && Ccw(l2.b, l1.a, l1.b) == 0.0
  }

  /** On one line, the test succeeds exactly when an endpoint lies strictly inside the other segment. */
  lemma IntersectsCollinear(l1: Segment, l2: Segment)
    requires Collinear(l1, l2)
    ensures Intersects(l1, l2) <==> Touching(l1, l2)
  {
  }

  /** With no collinear endpoint, reversing either segment does not change the answer. */
  lemma IntersectsReversed(l1: Segment, l2: Segment)
    requires GeneralPosition(l1, l2)
    ensures Intersects(l1.Reversed(), l2) <==> Intersects(l1, l2)
    ensures Intersects(l1, l2.Reversed()) <==> Intersects(l1, l2)
  {
    var r1, r2 := l1.Reversed(), l2.Reversed();
    CcwSymmetries(l1.a, l2.a, l2.b);
    CcwSymmetries(l1.b, l2.a, l2.b);
    CcwSymmetries(l2.a, l1.a, l1.b);
    CcwSymmetries(l2.b, l1.a, l1.b);
    assert GeneralPosition(r1, l2) && GeneralPosition(l1, r2);
    IntersectsGeneral(l1, l2);
    IntersectsGeneral(r1, l2);
    IntersectsGeneral(l1, r2);
    assert OppositeSides(l1.a, l1.b, l2) <==> OppositeSides(r1.a, r1.b, l2);
    assert OppositeSides(l1.a, l1.b, l2) <==> OppositeSides(l1.a, l1.b, r2);
    assert OppositeSides(l2.a, l2.b, l1) <==> OppositeSides(l2.a, l2.b, r1);
    assert OppositeSides(l2.a, l2.b, l1) <==> OppositeSides(r2.a, r2.b, l1);
  }

  /**
   * Outside general position the direction of a segment matters: two segments
   * sharing an endpoint at right angles meet one way round and not the other.
   */
  lemma ReversalMatters()
    ensures var l1, l2 := Segment(Point(0.0, 0.0), Point(0.0, 1.0)), Segment(Point(0.0, 0.0), Point(1.0, 0.0));
      !Intersects(l1, l2) && Intersects(l1.Reversed(), l2)
  {
    var o, north, east := Point(0.0, 0.0), Point(0.0, 1.0), Point(1.0, 0.0);
    assert Ccw(o, o, east) == 0.0 && Ccw(north, o, east) == 1.0;
    assert Ccw(o, north, o) == 0.0 && Ccw(o, north, east) == -1.0;
    assert Ccw(north, o, o) == 0.0 && Ccw(north, o, east) == 1.0;
  }

  /**
   * The answer `expected` for a pair of segments in the four forms the test
   * suite tries: as given, exchanged, both reversed, both reversed and exchanged.
   */
  predicate FourWays(l1: Segment, l2: Segment, expected: bool)
  {
    && Intersects(l1, l2) == expected
    && Intersects(l2, l1) == expected
    && Intersects(l1.Reversed(), l2.Reversed()) == expected
    && Intersects(l2.Reversed(), l1.Reversed()) == expected
  }

  /** Collinear segments meet in all four forms exactly when they touch. */
  lemma CollinearFourWays(l1: Segment, l2: Segment)
    requires Collinear(l1, l2)
    ensures FourWays(l1, l2, Touching(l1, l2))
  {
    var r1, r2 := l1.Reversed(), l2.Reversed();
    CcwSymmetries(l1.a, l2.a, l2.b);
    CcwSymmetries(l1.b, l2.a, l2.b);
    CcwSymmetries(l2.a, l1.a, l1.b);
    CcwSymmetries(l2.b, l1.a, l1.b);
    assert Collinear(l2, l1) && Collinear(r1, r2) && Collinear(r2, r1);
    IntersectsCollinear(l1, l2);
    IntersectsCollinear(l2, l1);
    IntersectsCollinear(r1, r2);
    IntersectsCollinear(r2, r1);
    TouchingSymmetric(l1, l2);
    TouchingSymmetric(r1, l2);
    TouchingSymmetric(r1, r2);
  }

  /** In general position the answer is the same in all four forms. */
  lemma GeneralFourWays(l1: Segment, l2: Segment)
    requires GeneralPosition(l1, l2)
    ensures FourWays(l1, l2, Intersects(l1, l2))
  {
    var r1 := l1.Reversed();
    IntersectsReversed(l1, l2);
    CcwSymmetries(l1.a, l2.a, l2.b);
    CcwSymmetries(l1.b, l2.a, l2.b);
    assert GeneralPosition(r1, l2);
    IntersectsReversed(r1, l2);
    assert r1.Reversed() == l1;
    IntersectsSwap(l1, l2);
    IntersectsSwap(r1, l2.Reversed());
  }

  /** Touching segments meet in all four forms. */
  lemma TouchingFourWays(l1: Segment, l2: Segment)
    requires Touching(l1, l2)
    ensures FourWays(l1, l2, true)
  {
    var r1, r2 := l1.Reversed(), l2.Reversed();
    TouchingSymmetric(l1, l2);
    TouchingSymmetric(r1, l2);
    TouchingSymmetric(r1, r2);
    IntersectsWhenTouching(l1, l2);
    IntersectsWhenTouching(l2, l1);
    IntersectsWhenTouching(r1, r2);
    IntersectsWhenTouching(r2, r1);
  }

  /** An endpoint of either segment lies strictly inside the other's extent. */
  predicate EndpointWithin(l1: Segment, l2: Segment)
  {
    Within(l2.a, l1.a, l2.b) || Within(l2.a, l1.b, l2.b) || Within(l1.a, l2.a, l1.b) || Within(l1.a, l2.b, l1.b)
  }

  /** Segments on one parallel are collinear, and touch exactly when an endpoint lies inside the other. */
  lemma OnOneParallel(l1: Segment, l2: Segment)
    requires l1.a.lat == l1.b.lat == l2.a.lat == l2.b.lat
    ensures Collinear(l1, l2)
    ensures Touching(l1, l2) <==> EndpointWithin(l1, l2)
  {
  }

  /** Segments on one meridian are collinear, and touch exactly when an endpoint lies inside the other. */
  lemma OnOneMeridian(l1: Segment, l2: Segment)
    requires l1.a.lon == l1.b.lon == l2.a.lon == l2.b.lon
    ensures Collinear(l1, l2)
    ensures Touching(l1, l2) <==> EndpointWithin(l1, l2)
  {
  }

  /** Crossing diagonals meet. */
  lemma IntersectsCrossing(l1: Segment, l2: Segment)
    requires l1 == Segment(Point(1.0, 1.0), Point(2.0, 2.0)) && l2 == Segment(Point(2.0, 1.0), Point(1.0, 2.0))
    ensures FourWays(l1, l2, true)
  {
    assert GeneralPosition(l1, l2) && Intersects(l1, l2);
    GeneralFourWays(l1, l2);
  }

  /** Two segments apart, in general position, do not meet. */
  lemma IntersectsApart(l1: Segment, l2: Segment)
    requires l1 == Segment(Point(1.0, 1.0), Point(2.0, 2.0)) && l2 == Segment(Point(2.0, 1.0), Point(3.0, 0.0))
    ensures FourWays(l1, l2, false)
  {
    assert GeneralPosition(l1, l2) && !Intersects(l1, l2);
    GeneralFourWays(l1, l2);
  }

  /** A north-south segment nested in another meets it. */
  lemma IntersectsNested(l1: Segment, l2: Segment)
    requires l1 == Segment(Point(1.0, 1.0), Point(1.0, 4.0)) && l2 == Segment(Point(1.0, 2.0), Point(1.0, 3.0))
    ensures FourWays(l1, l2, true)
  {
    OnOneMeridian(l1, l2);
    CollinearFourWays(l1, l2);
    assert EndpointWithin(l1, l2);
  }

  /** Overlapping north-south segments meet. */
  lemma IntersectsOverlap(l1: Segment, l2: Segment)
    requires l1 == Segment(Point(1.0, 1.0), Point(1.0, 3.0)) && l2 == Segment(Point(1.0, 2.0), Point(1.0, 4.0))
    ensures FourWays(l1, l2, true)
  {
    OnOneMeridian(l1, l2);
    CollinearFourWays(l1, l2);
    assert EndpointWithin(l1, l2);
  }

  /** An east-west segment nested in another meets it. */
  lemma IntersectsNestedEastWest(l1: Segment, l2: Segment)
    requires l1 == Segment(Point(1.0, 0.0), Point(4.0, 0.0)) && l2 == Segment(Point(2.0, 0.0), Point(3.0, 0.0))
    ensures FourWays(l1, l2, true)
  {
    OnOneParallel(l1, l2);
    CollinearFourWays(l1, l2);
    assert EndpointWithin(l1, l2);
  }

  /** A north-south segment on the meridian nested in another meets it. */
  lemma IntersectsNestedNorthSouth(l1: Segment, l2: Segment)
    requires l1 == Segment(Point(0.0, 1.0), Point(0.0, 4.0)) && l2 == Segment(Point(0.0, 2.0), Point(0.0, 3.0))
    ensures FourWays(l1, l2, true)
  {
    OnOneMeridian(l1, l2);
    CollinearFourWays(l1, l2);
    assert EndpointWithin(l1, l2);
  }

  /** Disjoint segments on one diagonal line do not meet. */
  lemma IntersectsCollinearApart(l1: Segment, l2: Segment)
    requires l1 == Segment(Point(1.0, 1.0), Point(2.0, 2.0)) && l2 == Segment(Point(3.0, 3.0), Point(4.0, 4.0))
    ensures FourWays(l1, l2, false)
  {
    assert Collinear(l1, l2) by {
      assert Ccw(Point(1.0, 1.0), Point(3.0, 3.0), Point(4.0, 4.0)) == 0.0 && Ccw(Point(2.0, 2.0), Point(3.0, 3.0), Point(4.0, 4.0)) == 0.0;
      assert Ccw(Point(3.0, 3.0), Point(1.0, 1.0), Point(2.0, 2.0)) == 0.0 && Ccw(Point(4.0, 4.0), Point(1.0, 1.0), Point(2.0, 2.0)) == 0.0;
    }
    CollinearFourWays(l1, l2);
    assert !EndpointWithin(l1, l2);
  }

  /** Disjoint segments on one east-west line do not meet. */
  lemma IntersectsApartEastWest(l1: Segment, l2: Segment)
    requires l1 == Segment(Point(1.0, 0.0), Point(2.0, 0.0)) && l2 == Segment(Point(3.0, 0.0), Point(4.0, 0.0))
    ensures FourWays(l1, l2, false)
  {
    OnOneParallel(l1, l2);
    CollinearFourWays(l1, l2);
    assert !EndpointWithin(l1, l2);
  }

  /** Disjoint segments on one north-south line do not meet. */
  lemma IntersectsApartNorthSouth(l1: Segment, l2: Segment)
    requires l1 == Segment(Point(0.0, 1.0), Point(0.0, 2.0)) && l2 == Segment(Point(0.0, 3.0), Point(0.0, 4.0))
    ensures FourWays(l1, l2, false)
  {
    OnOneMeridian(l1, l2);
    CollinearFourWays(l1, l2);
    assert !EndpointWithin(l1, l2);
  }

  /** A segment ending short of another does not meet it. */
  lemma IntersectsShortOfLine(l1: Segment, l2: Segment)
    requires l1 == Segment(Point(0.0, 0.0), Point(-2.0, -1.0)) && l2 == Segment(Point(1.0, -1.0), Point(1.0, 1.0))
    ensures FourWays(l1, l2, false)
  {
    assert GeneralPosition(l1, l2) && !Intersects(l1, l2);
    GeneralFourWays(l1, l2);
  }

  /** A segment passing through another meets it. */
  lemma IntersectsThroughLine(l1: Segment, l2: Segment)
    requires l1 == Segment(Point(0.0, 0.0), Point(-2.0, -1.0)) && l2 == Segment(Point(-1.0, -1.0), Point(-1.0, 1.0))
    ensures FourWays(l1, l2, true)
  {
    assert GeneralPosition(l1, l2) && Intersects(l1, l2);
    GeneralFourWays(l1, l2);
  }

  /** Parallel east-west segments do not meet. */
  lemma IntersectsParallel(l1: Segment, l2: Segment)
    requires l1 == Segment(Point(2.0, 2.0), Point(5.0, 2.0)) && l2 == Segment(Point(3.0, 1.0), Point(4.0, 1.0))
    ensures FourWays(l1, l2, false)
  {
    assert GeneralPosition(l1, l2) && !Intersects(l1, l2);
    GeneralFourWays(l1, l2);
  }

  /** An endpoint lying on the other segment counts as meeting. */
  lemma IntersectsEndpointOn(l1: Segment, l2: Segment)
    requires l1 == Segment(Point(0.0, 0.0), Point(2.0, 2.0)) && l2 == Segment(Point(1.0, 1.0), Point(2.0, 0.0))
    ensures FourWays(l1, l2, true)
  {
    assert Touching(l1, l2);
    TouchingFourWays(l1, l2);
  }
}
