/**
 * Filling and covering a polygon with geohash cells: the exact classification
 * of a cell (`_filter`), the corner-only one (`_quick_filter`), and the four
 * entry points `fill`, `cover`, `qfill` and `qcover` over the refinement loop.
 */
module Coverage {
  import opened Navigation
  import opened Geometry
  import opened Geohash
  import opened Polygons
  import opened Refinement

  /** The corners of a box in the order the filters test them: south-east, south-west, north-west, north-east. */
  function Corners(b: Box): (r: seq<Point>)
    ensures |r| == 4
    ensures forall i :: 0 <= i < 4 ==> (r[i].lon == b.w || r[i].lon == b.e) && (r[i].lat == b.s || r[i].lat == b.n)
    ensures forall lon, lat :: (lon == b.w || lon == b.e) && (lat == b.s || lat == b.n) ==> Point(lon, lat) in r
  {
    [Point(b.e, b.s), Point(b.w, b.s), Point(b.w, b.n), Point(b.e, b.n)]
  }

  /** All four corners of the box lie inside the polygon. */
  predicate CornersInside(poly: Polygon, b: Box)
    requires |poly.coords| > 0
  {
    forall i :: 0 <= i < 4 ==> Contains(poly, Corners(b)[i])
  }

  /** The box of the cell meets an edge of the polygon, or the cell holds the first vertex. */
  predicate OnOutline(poly: Polygon, codec: Codec, h: string)
    requires |poly.coords| > 0
  {
    IntersectsBox(poly, codec.cellBox(h)) || Matches(codec, poly.coords[0].lon, poly.coords[0].lat, h)
  }

  /**
   * The exact verdict: a cell on the outline is a boundary cell; any other cell
   * is inside when its four corners are, and outside otherwise.
   */
  function ExactVerdict(poly: Polygon, codec: Codec, h: string): (v: Verdict)
    requires |poly.coords| > 0
  {
    if OnOutline(poly, codec, h) then Boundary
    else if CornersInside(poly, codec.cellBox(h)) then Inside
    else Outside
  }

  /**
   * The quick verdict, from the corners alone: a cell whose corners disagree is
   * a boundary cell; otherwise it is inside or outside with its corners.
   */
  function QuickVerdict(poly: Polygon, codec: Codec, h: string): (v: Verdict)
    requires |poly.coords| > 0
    ensures v == Boundary <==>
      (exists i, j :: 0 <= i < 4 && 0 <= j < 4 &&
                      Contains(poly, Corners(codec.cellBox(h))[i]) != Contains(poly, Corners(codec.cellBox(h))[j]))
    ensures v == Inside <==> CornersInside(poly, codec.cellBox(h))
  {
    var c := Corners(codec.cellBox(h));
    var es, ws, wn, en := Contains(poly, c[0]), Contains(poly, c[1]), Contains(poly, c[2]), Contains(poly, c[3]);
    if es == ws && es == wn && es == en then (if es then Inside else Outside)
    else Boundary
  }

  /**
   * The classification the refinement uses: exact for `fill`/`cover`, corner-only
   * for `qfill`/`qcover`.  Either way, a cell that is not a boundary cell is
   * inside exactly when its four corners are.
   */
  function Classifier(poly: Polygon, codec: Codec, quick: bool): (classify: string -> Verdict)
    requires |poly.coords| > 0
    ensures forall h :: classify(h) != Boundary ==> (classify(h) == Inside <==> CornersInside(poly, codec.cellBox(h)))
  {
    h => if quick then QuickVerdict(poly, codec, h) else ExactVerdict(poly, codec, h)
  }

  /** One cell through `_filter`, with the source's tests in their order. */
  function ExactStep(poly: Polygon, codec: Codec, h: string, split: bool, cover: bool): (r: Filtered)
    requires |poly.coords| > 0
    ensures r == Act(ExactVerdict(poly, codec, h), h, split, cover)
  {
    var b := codec.cellBox(h);
    var outline := OnOutline(poly, codec, h);
    var inside := Contains(poly, Point(b.e, b.s)) && Contains(poly, Point(b.w, b.s)) &&
                  Contains(poly, Point(b.w, b.n)) && Contains(poly, Point(b.e, b.n));
    assert ExactVerdict(poly, codec, h) == if outline then Boundary else if inside then Inside else Outside by {
      assert inside == CornersInside(poly, b) by {
        assert Corners(b) == [Point(b.e, b.s), Point(b.w, b.s), Point(b.w, b.n), Point(b.e, b.n)];
      }
    }
    if outline then
      if split then Filtered([], SubHashcodes(h))
      else if cover then Filtered([h], [])
      else Filtered([], [])
    else if inside then Filtered([h], [])
    else Filtered([], [])
  }

  /** One cell through `_quick_filter`, with the source's tests in their order. */
  function QuickStep(poly: Polygon, codec: Codec, h: string, split: bool, cover: bool): (r: Filtered)
    requires |poly.coords| > 0
    ensures r == Act(QuickVerdict(poly, codec, h), h, split, cover)
  {
    var b := codec.cellBox(h);
    var oddity := Contains(poly, Point(b.e, b.s));
    var boundary := Divide(h, split, cover);
    if oddity && !split && cover then Filtered([h], [])
    else if oddity != Contains(poly, Point(b.w, b.s)) then boundary
    else if oddity != Contains(poly, Point(b.w, b.n)) then boundary
    else if oddity != Contains(poly, Point(b.e, b.n)) then boundary
    else if oddity then Filtered([h], [])
    else Filtered([], [])
  }

  /**
   * `_filter` on one cell: a cell on the outline gives its 32 children when
   * splitting and is kept only when covering at the last level; any other cell
   * is kept exactly when its four corners are inside, and has no children.
   */
  lemma ExactStepCases(poly: Polygon, codec: Codec, h: string, split: bool, cover: bool)
    requires |poly.coords| > 0
    ensures var r := ExactStep(poly, codec, h, split, cover);
      && (OnOutline(poly, codec, h) && split ==> r.accepted == [] && r.partial == SubHashcodes(h))
      && (OnOutline(poly, codec, h) && !split ==> r.partial == [] && (r.accepted == [h] <==> cover))
      && (!OnOutline(poly, codec, h) ==> r.partial == [] && (r.accepted == [h] <==> CornersInside(poly, codec.cellBox(h))))
      && (r.accepted == [] || r.accepted == [h])
  {
  }

  /**
   * `_quick_filter` on one cell: without covering a cell is kept exactly when
   * its four corners are inside; a cell with no corner inside is dropped; mixed
   * corners give the 32 children when splitting.
   */
  lemma QuickStepCases(poly: Polygon, codec: Codec, h: string, split: bool, cover: bool)
    requires |poly.coords| > 0
    ensures var r, c := QuickStep(poly, codec, h, split, cover), Corners(codec.cellBox(h));
      && (!cover ==> (r.accepted == [h] <==> CornersInside(poly, codec.cellBox(h))))
      && ((forall i :: 0 <= i < 4 ==> !Contains(poly, c[i])) ==> r.accepted == [] && r.partial == [])
      && (split && QuickVerdict(poly, codec, h) == Boundary ==> r.accepted == [] && r.partial == SubHashcodes(h))
      && (!split ==> r.partial == [])
  {
  }

  /**
   * The loop of `_filter` or `_quick_filter` over a list of cells; it is the
   * generic refinement step under the corresponding classification.
   */
  function FilterCells(poly: Polygon, codec: Codec, hs: seq<string>, split: bool, cover: bool, quick: bool): (r: Filtered)
    requires |poly.coords| > 0
    ensures r == Filter(Classifier(poly, codec, quick), hs, split, cover)
    decreases |hs|
  {
    if |hs| == 0 then Filtered([], [])
    else
      var s := if quick then QuickStep(poly, codec, hs[0], split, cover) else ExactStep(poly, codec, hs[0], split, cover);
      var rest := FilterCells(poly, codec, hs[1..], split, cover, quick);
      Filtered(s.accepted + rest.accepted, s.partial + rest.partial)
  }

  /**
   * `fill`: refined from the candidate cells at `minPrecision` up to
   * `maxPrecision` (capped at the default precision).  Every cell returned is
   * off the outline with all four corners inside the polygon.
   */
  function Fill(poly: Polygon, codec: Codec, cands: seq<string>,
                minPrecision: nat := DefaultMinPrecision, maxPrecision: nat := DefaultPrecision): (r: seq<string>)
    requires |poly.coords| > 0
    ensures (forall h :: h in cands ==> |h| == minPrecision) ==>
      forall h :: h in r ==> minPrecision <= |h| <= maxPrecision && |h| <= DefaultPrecision
    ensures forall h :: h in r ==> !OnOutline(poly, codec, h) && CornersInside(poly, codec.cellBox(h))
  {
    Hashcodes(Classifier(poly, codec, false), cands, minPrecision, maxPrecision, false)
  }

  /** `cover`: every cell returned is on the outline or has all four corners inside the polygon. */
  function Cover(poly: Polygon, codec: Codec, cands: seq<string>,
                 minPrecision: nat := DefaultMinPrecision, maxPrecision: nat := DefaultPrecision): (r: seq<string>)
    requires |poly.coords| > 0
    ensures (forall h :: h in cands ==> |h| == minPrecision) ==>
      forall h :: h in r ==> minPrecision <= |h| <= maxPrecision && |h| <= DefaultPrecision
    ensures forall h :: h in r ==> OnOutline(poly, codec, h) || CornersInside(poly, codec.cellBox(h))
  {
    Hashcodes(Classifier(poly, codec, false), cands, minPrecision, maxPrecision, true)
  }

  /** `qfill`: every cell returned has all four corners inside the polygon. */
  function QuickFill(poly: Polygon, codec: Codec, cands: seq<string>,
                     minPrecision: nat := DefaultMinPrecision, maxPrecision: nat := DefaultPrecision): (r: seq<string>)
    requires |poly.coords| > 0
    ensures (forall h :: h in cands ==> |h| == minPrecision) ==>
      forall h :: h in r ==> minPrecision <= |h| <= maxPrecision && |h| <= DefaultPrecision
    ensures forall h :: h in r ==> CornersInside(poly, codec.cellBox(h))
  {
    Hashcodes(Classifier(poly, codec, true), cands, minPrecision, maxPrecision, false)
  }

  /** `qcover`: every cell returned has at least one corner inside the polygon. */
  function QuickCover(poly: Polygon, codec: Codec, cands: seq<string>,
                      minPrecision: nat := DefaultMinPrecision, maxPrecision: nat := DefaultPrecision): (r: seq<string>)
    requires |poly.coords| > 0
    ensures (forall h :: h in cands ==> |h| == minPrecision) ==>
      forall h :: h in r ==> minPrecision <= |h| <= maxPrecision && |h| <= DefaultPrecision
    ensures forall h :: h in r ==> exists i :: 0 <= i < 4 && Contains(poly, Corners(codec.cellBox(h))[i])
  {
    Hashcodes(Classifier(poly, codec, true), cands, minPrecision, maxPrecision, true)
  }

  /** Filling keeps a subsequence of what covering keeps, in either mode of classification. */
  lemma FillWithinCover(poly: Polygon, codec: Codec, cands: seq<string>, minPrecision: nat, maxPrecision: nat)
    requires |poly.coords| > 0
    ensures Subseq(Fill(poly, codec, cands, minPrecision, maxPrecision), Cover(poly, codec, cands, minPrecision, maxPrecision))
    ensures Subseq(QuickFill(poly, codec, cands, minPrecision, maxPrecision), QuickCover(poly, codec, cands, minPrecision, maxPrecision))
  {
    var top := MinNat(maxPrecision, DefaultPrecision);
    RefineFillWithinCover(Classifier(poly, codec, false), cands, minPrecision, top);
    RefineFillWithinCover(Classifier(poly, codec, true), cands, minPrecision, top);
  }

  /** Raising the maximum precision of a fill only appends cells: the coarser fill is a prefix of the finer. */
  lemma FillDeeper(poly: Polygon, codec: Codec, cands: seq<string>, minPrecision: nat, maxPrecision: nat, maxPrecision': nat)
    requires |poly.coords| > 0
    requires maxPrecision <= maxPrecision'
    ensures var r, r' := Fill(poly, codec, cands, minPrecision, maxPrecision), Fill(poly, codec, cands, minPrecision, maxPrecision');
      |r| <= |r'| && r == r'[..|r|]
    ensures var r, r' := QuickFill(poly, codec, cands, minPrecision, maxPrecision), QuickFill(poly, codec, cands, minPrecision, maxPrecision');
      |r| <= |r'| && r == r'[..|r|]
  {
    var top, top' := MinNat(maxPrecision, DefaultPrecision), MinNat(maxPrecision', DefaultPrecision);
    RefineFillDeeper(Classifier(poly, codec, false), cands, minPrecision, top, top');
    RefineFillDeeper(Classifier(poly, codec, true), cands, minPrecision, top, top');
  }

  /** Above the default precision nothing changes: a larger maximum gives the same cells. */
  lemma PrecisionCapped(poly: Polygon, codec: Codec, cands: seq<string>, minPrecision: nat, maxPrecision: nat)
    requires |poly.coords| > 0
    requires maxPrecision >= DefaultPrecision
    ensures Fill(poly, codec, cands, minPrecision, maxPrecision) == Fill(poly, codec, cands, minPrecision, DefaultPrecision)
    ensures Cover(poly, codec, cands, minPrecision, maxPrecision) == Cover(poly, codec, cands, minPrecision, DefaultPrecision)
    ensures QuickFill(poly, codec, cands, minPrecision, maxPrecision) == QuickFill(poly, codec, cands, minPrecision, DefaultPrecision)
    ensures QuickCover(poly, codec, cands, minPrecision, maxPrecision) == QuickCover(poly, codec, cands, minPrecision, DefaultPrecision)
  {
    HashcodesCapped(Classifier(poly, codec, false), cands, minPrecision, maxPrecision);
    HashcodesCapped(Classifier(poly, codec, true), cands, minPrecision, maxPrecision);
  }

  /** Off the outline the two classifications agree on which cells are inside. */
  lemma QuickAgreesOffOutline(poly: Polygon, codec: Codec, h: string)
    requires |poly.coords| > 0
    requires !OnOutline(poly, codec, h)
    ensures ExactVerdict(poly, codec, h) == Inside <==> QuickVerdict(poly, codec, h) == Inside
  {
  }
}
