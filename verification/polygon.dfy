/**
 * A polygon given by its ring of vertices: construction with validation and
 * bounding box, even-odd point membership, and crossing of a box's sides.
 */
module Polygons {
  import opened Wrappers
  import opened Geometry

  /** The ring of vertices, closed implicitly from the last vertex back to the first, and its bounding box. */
  datatype Polygon = Polygon(coords: seq<Point>, box: Box)
  {
    /** What the constructor guarantees of every polygon it returns. */
    predicate Valid()
    {
      |coords| >= MinVertices &&
      (forall i :: 0 <= i < |coords| ==> VertexOk(coords[i])) &&
      box == Bounds(coords)
    }
  }

  const MinVertices: nat := 3

  /** Latitudes beyond this bound are refused: the refinement misbehaves near the poles. */
  const PolarLimit: real := 89.75

  /** A vertex the constructor accepts: inside the legal range and away from the poles. */
  predicate VertexOk(p: Point)
  {
    InBox(p, World) && -PolarLimit <= p.lat <= PolarLimit
  }

  /** The checks the constructor makes on one vertex, in order: longitude, latitude, then the polar band. */
  function VertexCheck(p: Point): (r: Outcome<GeoError>)
    ensures r.Pass? <==> VertexOk(p)
    ensures r.Fail? && r.error.NearPole? ==> InBox(p, World) && r.error.lat == p.lat
    ensures r.Fail? ==> r.error.LongitudeOutOfRange? || r.error.LatitudeOutOfRange? || r.error.NearPole?
  {
    match Validate(p.lon, p.lat)
    case Fail(e) => Fail(e)
    case Pass => if p.lat < -PolarLimit || p.lat > PolarLimit then Fail(NearPole(p.lat)) else Pass
  }

  /** The vertices are checked in order and the first failing one decides the error. */
  function CheckVertices(coords: seq<Point>): (r: Outcome<GeoError>)
    ensures r.Pass? <==> forall i :: 0 <= i < |coords| ==> VertexOk(coords[i])
    ensures r.Fail? ==> exists i :: 0 <= i < |coords| && VertexCheck(coords[i]) == r &&
                                    forall j :: 0 <= j < i ==> VertexOk(coords[j])
  {
    if |coords| == 0 then Pass
    else
      match VertexCheck(coords[0])
      case Fail(e) => Fail(e)
      case Pass =>
        var rest := CheckVertices(coords[1..]);
        assert forall i :: 1 <= i < |coords| ==> coords[1..][i - 1] == coords[i];
        if rest.Fail? then
          var i :| 0 <= i < |coords[1..]| && VertexCheck(coords[1..][i]) == rest &&
                   forall j :: 0 <= j < i ==> VertexOk(coords[1..][j]);
          assert VertexCheck(coords[i + 1]) == rest;
          rest
        else rest
  }

  function Min(x: real, y: real): real { if x <= y then x else y }
  function Max(x: real, y: real): real { if x >= y then x else y }

  /**
   * The bounding box, folded over the vertices in order: west and east are the
   * least and greatest longitude, south and north the least and greatest latitude.
   */
  function Bounds(coords: seq<Point>): (b: Box)
    requires |coords| > 0
    ensures forall i :: 0 <= i < |coords| ==> InBox(coords[i], b)
    ensures exists i :: 0 <= i < |coords| && coords[i].lon == b.w
    ensures exists i :: 0 <= i < |coords| && coords[i].lat == b.s
    ensures exists i :: 0 <= i < |coords| && coords[i].lon == b.e
    ensures exists i :: 0 <= i < |coords| && coords[i].lat == b.n
  {
    var p := coords[|coords| - 1];
    if |coords| == 1 then Box(p.lon, p.lat, p.lon, p.lat)
    else
      var init := coords[..|coords| - 1];
      var b := Bounds(init);
      assert forall i :: 0 <= i < |init| ==> init[i] == coords[i];
      Box(Min(p.lon, b.w), Min(p.lat, b.s), Max(p.lon, b.e), Max(p.lat, b.n))
  }

  /**
   * The constructor: too few vertices first, then the first vertex failing a
   * check; otherwise the polygon with its bounding box.
   */
  function NewPolygon(coords: seq<Point>): (r: Result<Polygon, GeoError>)
    ensures r.Success? <==> |coords| >= MinVertices && forall i :: 0 <= i < |coords| ==> VertexOk(coords[i])
    ensures r.Success? ==> r.value.coords == coords && r.value.Valid()
    ensures |coords| < MinVertices ==> r == Failure(TooFewPoints(|coords|))
    ensures |coords| >= MinVertices && r.Failure? ==>
      exists i :: 0 <= i < |coords| && VertexCheck(coords[i]) == Fail(r.error) &&
                  forall j :: 0 <= j < i ==> VertexOk(coords[j])
  {
    if |coords| < MinVertices then Failure(TooFewPoints(|coords|))
    else
      match CheckVertices(coords)
      case Fail(e) => Failure(e)
      case Pass => Success(Polygon(coords, Bounds(coords)))
  }

  /** The stored bounding box: it holds every vertex, and each of its bounds is some vertex's coordinate. */
  function BBox(poly: Polygon): (b: Box)
    requires poly.Valid()
    ensures forall i :: 0 <= i < |poly.coords| ==> InBox(poly.coords[i], b)
    ensures (exists i :: 0 <= i < |poly.coords| && poly.coords[i].lon == b.w) &&
            (exists i :: 0 <= i < |poly.coords| && poly.coords[i].lat == b.s) &&
            (exists i :: 0 <= i < |poly.coords| && poly.coords[i].lon == b.e) &&
            (exists i :: 0 <= i < |poly.coords| && poly.coords[i].lat == b.n)
  {
    poly.box
  }

  /** The vertex before vertex `i` on the ring. */
  function Prev(n: nat, i: nat): (j: nat)
    requires i < n
    ensures j < n && (i > 0 ==> j == i - 1) && (i == 0 ==> j == n - 1)
  {
    if i == 0 then n - 1 else i - 1
  }

  /** Edge `i` of the ring runs from the previous vertex to vertex `i`. */
  function Edge(coords: seq<Point>, i: nat): Segment
    requires i < |coords|
  {
    Segment(coords[Prev(|coords|, i)], coords[i])
  }

  /** The edge from `prev` to `curr` has one end strictly above latitude `y` and the other not. */
  predicate Straddles(prev: Point, curr: Point, y: real)
  {
    (curr.lat > y) != (prev.lat > y)
  }

  /** The longitude at which the line through `prev` and `curr` meets latitude `y`. */
  function CrossingLon(prev: Point, curr: Point, y: real): (r: real)
    requires prev.lat != curr.lat
  {
    (prev.lon - curr.lon) * (y - curr.lat) / (prev.lat - curr.lat) + curr.lon
  }

  /** The eastward ray from `pt` crosses the edge; the straddle test rules out a zero divisor. */
  predicate Crosses(prev: Point, curr: Point, pt: Point)
  {
    Straddles(prev, curr, pt.lat) && pt.lon < CrossingLon(prev, curr, pt.lat)
  }

  /** The even-odd state after walking the first `k` edges. */
  function Toggles(coords: seq<Point>, pt: Point, k: nat): bool
    requires k <= |coords|
  {
    if k == 0 then false
    else Toggles(coords, pt, k - 1) != Crosses(coords[Prev(|coords|, k - 1)], coords[k - 1], pt)
  }

  /**
   * Even-odd ray casting.  A point inside lies in the bounding box, on its
   * north and east sides excluded.
   */
  function Contains(poly: Polygon, pt: Point): (r: bool)
    requires |poly.coords| > 0
    ensures r ==> var b := Bounds(poly.coords); b.w <= pt.lon < b.e && b.s <= pt.lat < b.n
  {
    ContainsInBounds(poly.coords, pt);
    Toggles(poly.coords, pt, |poly.coords|)
  }

  /** The crossing of a straddled latitude lies between the longitudes of the edge's ends. */
  lemma CrossingBetween(prev: Point, curr: Point, y: real)
    requires Straddles(prev, curr, y)
    ensures Min(prev.lon, curr.lon) <= CrossingLon(prev, curr, y) <= Max(prev.lon, curr.lon)
  {
    var num, den := y - curr.lat, prev.lat - curr.lat;
    var t := num / den;
    if den > 0.0 {
      RatioBetween(num, den);
    } else {
      assert num / den == (-num) / (-den);
      RatioBetween(-num, -den);
    }
    var dx := prev.lon - curr.lon;
    assert CrossingLon(prev, curr, y) == dx * t + curr.lon;
    ScaleBetween(dx, t);
  }

  /** A ratio of a nonnegative value to a positive one no smaller than it lies in [0, 1]. */
  lemma RatioBetween(num: real, den: real)
    requires 0.0 <= num <= den && den > 0.0
    ensures 0.0 <= num / den <= 1.0
  {
    assert num / den * den == num;
  }

  /** Scaling by a factor in [0, 1] lands between zero and the value scaled. */
  lemma ScaleBetween(x: real, t: real)
    requires 0.0 <= t <= 1.0
    ensures Min(0.0, x) <= x * t <= Max(0.0, x)
  {
    if x >= 0.0 {
      assert x * t <= x * 1.0;
    } else {
      assert x * t >= x * 1.0;
    }
  }

  /** West of every vertex, every straddled edge is crossed, so the walk toggles once per straddle. */
  lemma {:induction false} TogglesWest(coords: seq<Point>, pt: Point, k: nat)
    requires 0 < k <= |coords|
    requires forall i :: 0 <= i < |coords| ==> pt.lon < coords[i].lon
    ensures Toggles(coords, pt, k) == ((coords[|coords| - 1].lat > pt.lat) != (coords[k - 1].lat > pt.lat))
  {
    var n := |coords|;
    var prev, curr := coords[Prev(n, k - 1)], coords[k - 1];
    if Straddles(prev, curr, pt.lat) {
      CrossingBetween(prev, curr, pt.lat);
    }
    if k > 1 {
      TogglesWest(coords, pt, k - 1);
    }
  }

  /** A walk whose point is outside the latitude band or east of every vertex never toggles. */
  lemma {:induction false} TogglesNever(coords: seq<Point>, pt: Point, k: nat)
    requires k <= |coords|
    requires (forall i :: 0 <= i < |coords| ==> coords[i].lat <= pt.lat) ||
             (forall i :: 0 <= i < |coords| ==> coords[i].lat > pt.lat) ||
             (forall i :: 0 <= i < |coords| ==> coords[i].lon <= pt.lon)
    ensures !Toggles(coords, pt, k)
  {
    if k > 0 {
      var prev, curr := coords[Prev(|coords|, k - 1)], coords[k - 1];
      if Straddles(prev, curr, pt.lat) {
        CrossingBetween(prev, curr, pt.lat);
      }
      TogglesNever(coords, pt, k - 1);
    }
  }

  lemma ContainsInBounds(coords: seq<Point>, pt: Point)
    requires |coords| > 0
    ensures Toggles(coords, pt, |coords|) ==>
      var b := Bounds(coords); b.w <= pt.lon < b.e && b.s <= pt.lat < b.n
  {
    var b := Bounds(coords);
    if pt.lon < b.w {
      TogglesWest(coords, pt, |coords|);
    } else if !(pt.lon < b.e && b.s <= pt.lat < b.n) {
      TogglesNever(coords, pt, |coords|);
    }
  }

  /** The four sides of a box in the order the source tries them: south, east, north, west. */
  function Sides(b: Box): (r: seq<Segment>)
    ensures |r| == 4
    ensures forall j :: 0 <= j < 4 ==> r[j].b == r[(j + 1) % 4].a
    ensures forall j :: 0 <= j < 4 ==> r[j].a.lat == r[j].b.lat || r[j].a.lon == r[j].b.lon
  {
    var ws, es, en, wn := Point(b.w, b.s), Point(b.e, b.s), Point(b.e, b.n), Point(b.w, b.n);
    [Segment(ws, es), Segment(es, en), Segment(en, wn), Segment(wn, ws)]
  }

  /** One polygon edge against the four sides, with the source's early returns. */
  predicate EdgeMeetsBox(b: Box, e: Segment)
  {
    var sides := Sides(b);
    if Intersects(sides[0], e) then true
    else if Intersects(sides[1], e) then true
    else if Intersects(sides[2], e) then true
    else if Intersects(sides[3], e) then true
    else false
  }

  lemma EdgeMeetsSomeSide(b: Box, e: Segment)
    ensures EdgeMeetsBox(b, e) <==> exists j :: 0 <= j < 4 && Intersects(Sides(b)[j], e)
  {
  }

  /** The edges from `k` on, walked in ring order until one meets the box. */
  function EdgesMeetBox(coords: seq<Point>, b: Box, k: nat): (r: bool)
    requires k <= |coords|
    ensures r <==> exists i :: k <= i < |coords| && EdgeMeetsBox(b, Edge(coords, i))
    decreases |coords| - k
  {
    if k == |coords| then false
    else if EdgeMeetsBox(b, Edge(coords, k)) then true
    else EdgesMeetBox(coords, b, k + 1)
  }

  /**
   * Some edge of the ring, the closing edge included, meets some side of the
   * box; the early return does not change the answer.
   */
  function IntersectsBox(poly: Polygon, b: Box): (r: bool)
    ensures r <==> exists i, j :: 0 <= i < |poly.coords| && 0 <= j < 4 && Intersects(Sides(b)[j], Edge(poly.coords, i))
  {
    forall i | 0 <= i < |poly.coords| {
      EdgeMeetsSomeSide(b, Edge(poly.coords, i));
    }
    EdgesMeetBox(poly.coords, b, 0)
  }

  lemma BoundsExample()
    ensures Bounds([Point(2.32378006, 48.86403720), Point(2.35691071, 48.88616602), Point(2.37905502, 48.85816465)])
         == Box(2.32378006, 48.85816465, 2.37905502, 48.88616602)
  {
    var coords := [Point(2.32378006, 48.86403720), Point(2.35691071, 48.88616602), Point(2.37905502, 48.85816465)];
    assert coords[..2][..1] == [coords[0]];
  }

  /** The crossing of the latitude an edge starts at is the start's own longitude. */
  lemma CrossingAtStart(prev: Point, curr: Point)
    requires prev.lat != curr.lat
    ensures CrossingLon(prev, curr, prev.lat) == prev.lon
  {
    var d := prev.lat - curr.lat;
    assert (prev.lon - curr.lon) * d / d == prev.lon - curr.lon;
  }

  /**
   * The test triangle contains its own first vertex: of the three edges only
   * the one opposite the vertex crosses the eastward ray from it.
   */
  lemma ContainsFirstVertex(poly: Polygon)
    requires poly.coords == [Point(2.32378006, 48.86403720), Point(2.35691071, 48.88616602), Point(2.37905502, 48.85816465)]
    ensures Contains(poly, poly.coords[0])
  {
    var a, b, c := poly.coords[0], poly.coords[1], poly.coords[2];
    CrossingAtStart(a, b);
    CrossingBetween(b, c, a.lat);
    assert !Crosses(c, a, a) && !Crosses(a, b, a) && Crosses(b, c, a);
    assert Toggles(poly.coords, a, 1) == false;
    assert Toggles(poly.coords, a, 2) == false;
  }
}
