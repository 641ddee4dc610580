# geotools core in Dafny

A model of the two pure components of the `geotools` utilities.

- **Grid navigation and planar primitives** come from `geotools/utils/__init__.py`:
  - the geohash alphabet and its neighbour and edge-case tables;
  - `adjacent` and its four compass wrappers, and `subhashcodes`;
  - the longitude comparison `is_west`;
  - the orientation test `_ccw`, the betweenness test `_within` and the segment test `intersects`;
  - the strict branch of `validate`;
  - `matches`, over an encoder given as a parameter.
- **Polygon classification and refinement** comes from `geotools/utils/polygon.py`:
  - the constructor (validation and bounding box) and `bbox`;
  - even-odd `contains`;
  - `intersects` against a box;
  - the exact and quick per-level filters;
  - the refine loop of `hashcodes`, with `fill`, `cover`, `qfill` and `qcover` on top.

Cell ids are `string`s. Coordinates are exact `real`s.

The geohash codec is an external library. It is a parameter: a `Codec` value holds an `encode` function and a `cellBox` function. The only assumption made about it is the one a lemma states in its `requires` clause: the encoder returns as many symbols as the precision it is asked for.

Modules, in dependency order:

| file | module | contents |
|---|---|---|
| wrappers.dfy | Wrappers | `Option`, `Result`, `Outcome` |
| alphabet.dfy | Alphabet | `Base`, the neighbour and edge-case tables, the `.index` lookup, and the table consistency proofs |
| navigation.dfy | Navigation | `Adjacent`, the compass wrappers, the string-keyed entry point, `SubHashcodes`, and their lemmas |
| adjacent_examples.dfy | AdjacentExamples | every concrete `adjacent` value of the test suite, each from the step equations of `Navigation` |
| geometry.dfy | Geometry | points, segments and boxes; `Validate`, `IsWest`, `Ccw`, `Within`, `Intersects` |
| geohash.dfy | Geohash | the codec parameter and `Matches` |
| polygon.dfy | Polygons | the constructor, the bounding box, `Contains`, `IntersectsBox` |
| refinement.dfy | Refinement | the per-level filter and the precision loop, generic over a classification of cells |
| coverage.dfy | Coverage | the exact and quick classifications of a polygon, the source's per-cell steps, and `Fill`/`Cover`/`QuickFill`/`QuickCover` |

Design decisions:

- **`adjacent` errors.** `adjacent` raises four different errors, each a separate `NavError`:
  - an empty id (`InvalidGeohash`);
  - a direction failing the substring test `direction not in 'nsew'` (`InvalidDirection`);
  - a direction that passes that test but is not a table key (`UnknownDirection`, Python's `KeyError`);
  - a last symbol outside `BASE`, which `str.index` on line 82 refuses (`NotInAlphabet`, Python's `ValueError`).
  - `Adjacent` takes a `Direction` datatype.
  - `AdjacentNamed` takes the raw string. Strings such as `""` or `"ns"` pass the substring guard and then miss the tables.
- **The two filters.** Each filter is modelled twice:
  - once step by step, in the source's branch order (`ExactStep`, `QuickStep`);
  - once as a verdict (`Inside`, `Outside` or `Boundary`) followed by a fixed action (`Act`).

  A lemma-level `ensures` proves the two agree. The refinement loop and its properties are stated over an arbitrary classification.
- **`intersects` and segment direction.** `intersects` is invariant under exchanging its two segments, for all inputs. It is not invariant under reversing one segment. Two segments that meet at a right angle at a shared endpoint give `false` one way round and `true` the other (`Geometry.ReversalMatters`). Invariance under reversal holds only when no endpoint is collinear with the other segment (`Geometry.IntersectsReversed`). The model follows the code.

## Model

| member | source | states |
|---|---|---|
| Alphabet.IndexOf | geotools/utils/__init__.py:82 | `str.index`: no position exactly when the symbol is absent; otherwise an in-range position holding the symbol, with no earlier occurrence |
| Alphabet.BaseDistinct | geotools/utils/__init__.py:31 | the 32 symbols of `BASE` are pairwise distinct |
| Alphabet.BaseInjective | geotools/utils/__init__.py:31 | two positions of `BASE` hold the same symbol exactly when they are the same position |
| Alphabet.TablesConsistent | geotools/utils/__init__.py:31-43 | for every direction and parity: the neighbour string is a permutation of `BASE`; the edge string lies within `BASE`; symbols outside `BASE` are rejected; the opposite direction's string maps each neighbour back; a symbol is an edge case exactly when its neighbour is an opposite edge case |
| Alphabet.ShiftFacts | geotools/utils/__init__.py:78-82 | for one symbol: the lookup on line 82 succeeds exactly for symbols of `BASE`; it yields a different `BASE` symbol, which the opposite table maps back; edge-case membership carries over to the opposite direction |
| Navigation.Adjacent | geotools/utils/__init__.py:67-82 | the empty id (and only it) raises `Invalid geohash`; a returned cell has the input's length and ends in a `BASE` symbol; an id spelled in `BASE` never raises |
| Navigation.Parent | geotools/utils/__init__.py:75-79 | the parent a neighbour is built on has one symbol fewer, and never raises for an id spelled in `BASE` |
| Navigation.Extend | geotools/utils/__init__.py:82 | appending the neighbour symbol succeeds whenever the parent did and the last symbol is in `BASE` |
| Navigation.SubstringsOfNsew | geotools/utils/__init__.py:72 | the substring guard passes exactly the four direction keys and seven other substrings of `"nsew"`, the empty string among them |
| Navigation.AdjacentNamed | geotools/utils/__init__.py:70-73 | checks run in order: empty id, then the substring guard, then the table key; a valid key behaves as `Adjacent` |
| Navigation.AdjacentInBase | geotools/utils/__init__.py:75-82 | the neighbour of an id spelled in `BASE` is spelled in `BASE` |
| Navigation.SiblingStep | geotools/utils/__init__.py:75-82 | when the last symbol is not an edge case, a neighbour exists, the prefix is unchanged and only the last symbol differs |
| Navigation.StepWithin | geotools/utils/__init__.py:75-82 | non-edge case: the result is the prefix plus the looked-up symbol |
| Navigation.StepAcross | geotools/utils/__init__.py:78-82 | edge case below the top level: the parent's neighbour takes the looked-up symbol, and `None` propagates |
| Navigation.StepFromTop | geotools/utils/__init__.py:79-82 | edge case at the top level: `None` north and south, a one-symbol wrap east and west |
| Navigation.EastWestTotal | geotools/utils/__init__.py:79 | east and west always return a cell for an id spelled in `BASE` |
| Navigation.PolarBorder | geotools/utils/__init__.py:79 | north (south) returns `None` exactly when every symbol is on its parent's north (south) border, which is the top (bottom) row |
| Navigation.AdjacentNone | geotools/utils/__init__.py:75-82 | towards north or south, a cell has no neighbour exactly when its last symbol is an edge case and its parent, if it has one, has no neighbour either |
| Navigation.RoundTrip | geotools/utils/__init__.py:67-82 | if the neighbour towards d is h', the neighbour of h' in the opposite direction is h |
| Navigation.RoundTripParent | geotools/utils/__init__.py:75-82 | on the way back, the parent of the neighbour in the opposite direction is the cell's own parent |
| Navigation.SubHashcodes | geotools/utils/__init__.py:124-126 | exactly 32 children |
| Navigation.SubHashcodesLength | geotools/utils/__init__.py:124-126 | every child has length one more than its parent and the parent as its prefix |
| Navigation.SubHashcodesExact | geotools/utils/tests/test_utils.py:106-111 | the children are pairwise distinct, and a string is a child exactly when it is the parent plus one `BASE` symbol |
| AdjacentExamples.NorthTests | geotools/utils/tests/test_utils.py:115-136 | each northern neighbour the test suite asserts: the sibling steps up column `g`, the step from `ez` across to `gb`, the five prefixes of `7ruxg` moving into `e2h85`, and the `e2h..` chain |
| AdjacentExamples.SouthTests | geotools/utils/tests/test_utils.py:139-160 | each southern neighbour the test suite asserts, the reverse of the northern values |
| AdjacentExamples.EastTests | geotools/utils/tests/test_utils.py:163-175 | each eastern neighbour the test suite asserts: the one-symbol cycle `2 3 6 7 k m q r` wrapping from `r` back to `2`, and the `7n`..`7y` chain crossing into `kn` |
| AdjacentExamples.WestTests | geotools/utils/tests/test_utils.py:178-190 | each western neighbour the test suite asserts: the one-symbol cycle back from `2` to `r`, and the `7y`..`7n` chain crossing into `6y` |
| Navigation.PolarExamples | geotools/utils/tests/test_utils.py:124-148 | `gz` has no northern neighbour and `58` has no southern one |
| Geometry.Validate | geotools/utils/__init__.py:85-98 | strict check: passes exactly for points in [-180,180]×[-90,90]; longitude is checked first and its error carries the longitude; a latitude error implies the longitude was in range |
| Geometry.IsWest | geotools/utils/__init__.py:46-48 | the comparison itself, shifted into [0, 360]; its meaning is stated by `IsWestGap`, `IsWestAsymmetric`, `IsWestTotal` and `IsWestSeam` |
| Geometry.IsWestGap | geotools/utils/__init__.py:46-48 | for longitudes less than a full turn apart, `is_west` holds exactly when the eastward gap is strictly between 0 and 180 |
| Geometry.IsWestAsymmetric | geotools/utils/__init__.py:46-48 | irreflexive and asymmetric, for all reals |
| Geometry.IsWestTotal | geotools/utils/__init__.py:46-48 | two distinct, non-antipodal longitudes less than a turn apart are ordered one way or the other |
| Geometry.IsWestSeam | geotools/utils/__init__.py:46-48 | not periodic: `is_west(180, -180)` holds, while `is_west(-180, -180)` does not |
| Geometry.IsWestExamples | geotools/utils/tests/test_utils.py:81-85 | the four values the test suite asserts |
| Geometry.Ccw | geotools/utils/__init__.py:100-101 | twice the signed area of the triangle; its symmetries are stated by `CcwSymmetries` |
| Geometry.CcwSymmetries | geotools/utils/__init__.py:100-101 | orientation is invariant under rotating its arguments and negated by a swap |
| Geometry.Within | geotools/utils/__init__.py:104-105 | strict betweenness in longitude or in latitude; used by `Intersects` and `EndpointWithin` |
| Geometry.Intersects | geotools/utils/__init__.py:108-121 | the four early returns and the final sign test, in the source's order; its behaviour is stated by the `Intersects…` and `…FourWays` lemmas |
| Geometry.IntersectsWhenTouching | geotools/utils/__init__.py:108-120 | an endpoint collinear with and strictly within the other segment gives true |
| Geometry.IntersectsSwap | geotools/utils/__init__.py:108-121 | exchanging the segments never changes the result |
| Geometry.IntersectsGeneral | geotools/utils/__init__.py:108-121 | with no zero orientation, true exactly when each segment's ends lie strictly on opposite sides of the other's line |
| Geometry.IntersectsReversed | geotools/utils/__init__.py:108-121 | with no zero orientation, reversing either segment does not change the result |
| Geometry.ReversalMatters | geotools/utils/__init__.py:108-121 | counterexample: two segments with a shared endpoint whose result changes when one is reversed |
| Geometry.IntersectsCollinear | geotools/utils/__init__.py:108-121 | when all four endpoints are collinear, true exactly when an endpoint lies strictly within the other segment |
| Geometry.CollinearFourWays | geotools/utils/tests/test_utils.py:57-61 | for collinear segments, all four forms the tests try (as given, exchanged, both reversed, both reversed and exchanged) give the same answer, which is whether they touch |
| Geometry.GeneralFourWays | geotools/utils/tests/test_utils.py:57-61 | with no collinear endpoint, all four forms give the same answer |
| Geometry.TouchingFourWays | geotools/utils/tests/test_utils.py:57-61 | touching segments meet in all four forms |
| Geometry.TouchingSymmetric | geotools/utils/__init__.py:108-120 | whether an endpoint lies on the other segment does not depend on the order or the direction of the segments |
| Geometry.OnOneParallel | geotools/utils/__init__.py:100-105 | segments on one latitude are collinear, and touch exactly when an endpoint lies strictly inside the other |
| Geometry.OnOneMeridian | geotools/utils/__init__.py:100-105 | segments on one longitude are collinear, and touch exactly when an endpoint lies strictly inside the other |
| Geometry.IntersectsCrossing | geotools/utils/tests/test_utils.py:63 | crossing diagonals meet, in all four forms |
| Geometry.IntersectsApart | geotools/utils/tests/test_utils.py:64 | the disjoint pair of the test suite does not meet, in all four forms |
| Geometry.IntersectsNested | geotools/utils/tests/test_utils.py:65 | a collinear segment nested in another meets it, in all four forms |
| Geometry.IntersectsOverlap | geotools/utils/tests/test_utils.py:66 | overlapping collinear segments meet, in all four forms |
| Geometry.IntersectsNestedEastWest | geotools/utils/tests/test_utils.py:67 | a segment on the equator nested in another meets it, in all four forms |
| Geometry.IntersectsNestedNorthSouth | geotools/utils/tests/test_utils.py:68 | a segment on the prime meridian nested in another meets it, in all four forms |
| Geometry.IntersectsCollinearApart | geotools/utils/tests/test_utils.py:69 | disjoint collinear segments do not meet, in all four forms |
| Geometry.IntersectsApartEastWest | geotools/utils/tests/test_utils.py:70 | disjoint segments on the equator do not meet, in all four forms |
| Geometry.IntersectsApartNorthSouth | geotools/utils/tests/test_utils.py:71 | disjoint segments on the prime meridian do not meet, in all four forms |
| Geometry.IntersectsShortOfLine | geotools/utils/tests/test_utils.py:74 | a segment ending short of another does not meet it, in all four forms |
| Geometry.IntersectsThroughLine | geotools/utils/tests/test_utils.py:75 | a segment passing through another meets it, in all four forms |
| Geometry.IntersectsParallel | geotools/utils/tests/test_utils.py:76 | parallel horizontal segments do not meet, in all four forms |
| Geometry.IntersectsEndpointOn | geotools/utils/tests/test_utils.py:79 | an endpoint lying on the other segment counts as meeting, in all four forms |
| Geohash.Matches | geotools/utils/__init__.py:129-130 | a cell matches a point when encoding the point at the cell's length gives the cell; `MatchesEncoded` states what that means |
| Geohash.MatchesEncoded | geotools/utils/__init__.py:129-130 | under a length-respecting encoder, the encoded cell matches the point, and it is the only matching cell of that length |
| Polygons.VertexCheck | geotools/utils/polygon.py:39-42 | a vertex passes exactly when it is in the legal range and within ±89.75 latitude; the polar error is raised only for in-range vertices |
| Polygons.CheckVertices | geotools/utils/polygon.py:38-42 | all vertices pass exactly when each does; on failure the error is that of the first failing vertex |
| Polygons.Bounds | geotools/utils/polygon.py:43-48 | the box contains every vertex, and each bound is attained by some vertex |
| Polygons.NewPolygon | geotools/utils/polygon.py:31-48 | success exactly for at least 3 vertices, all acceptable; fewer than 3 raises first; otherwise the first failing vertex decides the error; a result keeps the vertices and its box is their bounds |
| Polygons.BBox | geotools/utils/polygon.py:50-51 | the stored box holds every vertex and each bound is some vertex's coordinate |
| Polygons.BoundsExample | geotools/utils/tests/test_polygon.py:24-32 | the box of the test suite's triangle |
| Polygons.Contains | geotools/utils/polygon.py:54-65 | a point inside satisfies w ≤ lon < e and s ≤ lat < n; the division happens only after the straddle test, which makes the divisor nonzero |
| Polygons.Crosses | geotools/utils/polygon.py:61-62 | the straddle test, then the crossing comparison, in the source's order; `CrossingBetween` bounds the crossing |
| Polygons.Toggles | geotools/utils/polygon.py:58-65 | the parity after the first k edges of the ring, the closing edge first; `TogglesWest` and `TogglesNever` state its behaviour |
| Polygons.CrossingBetween | geotools/utils/polygon.py:61-62 | where an edge straddles the ray's latitude, the crossing longitude lies between the edge's end longitudes |
| Polygons.RatioBetween | geotools/utils/polygon.py:62 | a nonnegative value divided by a positive value no smaller than it lies in [0, 1], the step that keeps the crossing on the edge |
| Polygons.CrossingAtStart | geotools/utils/polygon.py:62 | at the latitude an edge starts at, the crossing is the start's own longitude |
| Polygons.ContainsFirstVertex | geotools/utils/tests/test_polygon.py:39 | the test suite's triangle contains its own first vertex |
| Polygons.TogglesWest | geotools/utils/polygon.py:58-65 | west of every vertex, the parity after k edges is whether vertex k-1 and the last vertex lie on different sides of the ray |
| Polygons.TogglesNever | geotools/utils/polygon.py:58-65 | a ray outside the latitude band, or east of every vertex, never toggles |
| Polygons.ContainsInBounds | geotools/utils/polygon.py:54-65 | a point inside lies in the half-open bounding box |
| Polygons.Sides | geotools/utils/polygon.py:70-76 | four sides, each ending where the next begins, each horizontal or vertical |
| Polygons.EdgeMeetsBox | geotools/utils/polygon.py:70-77 | the four calls to `intersects`, south, east, north and west sides in order; `EdgeMeetsSomeSide` states it |
| Polygons.EdgeMeetsSomeSide | geotools/utils/polygon.py:70-77 | the chain of early returns is true exactly when some side meets the edge |
| Polygons.EdgesMeetBox | geotools/utils/polygon.py:68-79 | the walk from edge k is true exactly when some later edge meets the box |
| Polygons.IntersectsBox | geotools/utils/polygon.py:67-79 | true exactly when some ring edge, the closing one included, meets some side of the box |
| Refinement.Act | geotools/utils/polygon.py:173-186 | a cell is accepted exactly when its verdict keeps it; boundary cells give their children exactly when splitting |
| Refinement.Filter | geotools/utils/polygon.py:168-188 | without splitting, the partial list is empty |
| Refinement.FilterOrdered | geotools/utils/polygon.py:168-188 | the accepted cells are a subsequence of the input, in the input's order |
| Refinement.FilterPartialCount | geotools/utils/polygon.py:175-176 | when splitting, the partial list holds 32 cells per boundary input cell |
| Refinement.FilterLengths | geotools/utils/polygon.py:168-188 | from candidates of one length, accepted cells keep that length and partial cells are one symbol longer |
| Refinement.FilterAccepted | geotools/utils/polygon.py:168-188 | a cell is accepted exactly when it is an input cell whose verdict keeps it |
| Refinement.FilterPartial | geotools/utils/polygon.py:168-188 | the partial list holds exactly the children of the boundary input cells, and only when splitting |
| Refinement.FilterSplitIgnoresCover | geotools/utils/polygon.py:175-178 | when splitting, `cover` makes no difference |
| Refinement.FilterFillIgnoresSplit | geotools/utils/polygon.py:175-178 | without `cover`, splitting changes only the partial list |
| Refinement.FilterFillWithinCover | geotools/utils/polygon.py:175-178 | the cells accepted without `cover` are a subsequence of those accepted with it |
| Refinement.Refine | geotools/utils/polygon.py:120-128 | fill results are inside cells; cover results are never outside cells |
| Refinement.RefineLengths | geotools/utils/polygon.py:120-128 | from candidates of length `level`, every result has a length between `level` and the top precision |
| Refinement.RefineFillWithinCover | geotools/utils/polygon.py:120-128 | over the same levels, the fill result is a subsequence of the cover result |
| Refinement.RefineFillDeeper | geotools/utils/polygon.py:120-128 | raising the top precision of a fill only appends cells |
| Refinement.HashcodesCapped | geotools/utils/polygon.py:102 | for any classification and either mode, any maximum of 9 or more gives the same cells as 9 |
| Refinement.Hashcodes | geotools/utils/polygon.py:102-128 | the maximum is capped at 9; result lengths lie between the minimum and the capped maximum; nothing is returned when the minimum exceeds the cap; results respect the verdicts |
| Coverage.Corners | geotools/utils/polygon.py:181-184 | the four corners of the box, each combination of west/east and south/north exactly once |
| Coverage.QuickVerdict | geotools/utils/polygon.py:142-165 | boundary exactly when two corners disagree; inside exactly when all four corners are inside |
| Coverage.Classifier | geotools/utils/polygon.py:124-126 | whichever classification `quick` selects, a cell it does not call boundary is inside exactly when all four of its corners are inside the polygon |
| Coverage.ExactStep | geotools/utils/polygon.py:172-186 | `_filter` on one cell, in the source's order, equals the exact verdict followed by the common action |
| Coverage.QuickStep | geotools/utils/polygon.py:141-165 | `_quick_filter` on one cell, in the source's order, equals the quick verdict followed by the common action |
| Coverage.ExactStepCases | geotools/utils/polygon.py:173-186 | a cell on the outline gives its 32 children when splitting and is kept only when covering at the last level; any other cell is kept exactly when its corners are inside |
| Coverage.QuickStepCases | geotools/utils/polygon.py:142-165 | without `cover`, kept exactly when all corners are inside; no corner inside means dropped; mixed corners split when splitting |
| Coverage.FilterCells | geotools/utils/polygon.py:134-188 | the source's loop over cells equals the generic filter under the chosen classification |
| Coverage.Fill | geotools/utils/polygon.py:90-91 | lengths in range for candidates of the minimum precision; every cell is off the outline with all four corners inside |
| Coverage.Cover | geotools/utils/polygon.py:84-85 | lengths in range for candidates of the minimum precision; every cell is on the outline or has all four corners inside |
| Coverage.QuickFill | geotools/utils/polygon.py:87-88 | lengths in range for candidates of the minimum precision; every cell has all four corners inside |
| Coverage.QuickCover | geotools/utils/polygon.py:81-82 | lengths in range for candidates of the minimum precision; every cell has at least one corner inside |
| Coverage.FillWithinCover | geotools/utils/polygon.py:81-91 | `fill` is a subsequence of `cover`, and `qfill` of `qcover` |
| Coverage.FillDeeper | geotools/utils/polygon.py:120-128 | a larger maximum precision only appends cells to `fill` and `qfill` |
| Coverage.PrecisionCapped | geotools/utils/polygon.py:102 | for `fill`, `cover`, `qfill` and `qcover` alike, any maximum of 9 or more gives the same result as 9 |
| Coverage.QuickAgreesOffOutline | geotools/utils/polygon.py:134-188 | off the outline, the two classifications agree on which cells are inside |

## Left out

- The raster scan that seeds `hashcodes` (geotools/utils/polygon.py:105-118) is not modelled. It walks east and north until the codec's boxes pass the polygon's box, so it terminates only through the codec's geometry. The candidate cells are an input to `Refinement.Hashcodes` and the four wrappers.
- Coverage.Fill: the length bounds are stated under the hypothesis that all candidates have the minimum precision, which is what the scan produces from a length-respecting encoder. The same applies to Coverage.Cover, Coverage.QuickFill and Coverage.QuickCover.
- Polygons.NewPolygon: validates with the strict comparisons. The constructor in the source calls the non-strict `validate`, which first rounds to 6 decimal places (geotools/utils/__init__.py:88-91). The model therefore refuses coordinates such as 180.0000001 that the source accepts. Float rounding is not modelled.
- Geometry.Validate: models only the strict branch, for the same reason.
- The geohash codec (`geohash.encode`, `geohash.bbox`) is a parameter. `matches` is modelled over it. The tests that need the real codec are not stated. These include the London neighbours, the two `contains` checks on cell corners (geotools/utils/tests/test_polygon.py:37-38), the polygon's classified cells, and the expected cell lists and counts of `test_hashes`.
- Floating point throughout. Coordinates are exact reals, so rounding in `_ccw` and in the division in `contains` is not captured.
- `distance` (geotools/utils/__init__.py:134-140), `geotools/utils/circle.py` and `geotools/utils/path.py` are not part of this model. They rest on great-circle computations in an external library, and the path walk has no termination argument.
- `north`, `south`, `east` and `west` are `Adjacent` with a fixed direction (`Navigation.NorthOf` and the others). Their properties are stated through `Adjacent`.
- Python's exception classes are not kept. Each raise becomes its own constructor of `NavError` or `GeoError`, so `ValueError` and `KeyError` are told apart by constructor rather than by class.
