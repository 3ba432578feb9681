# lingeo planar geometry engine — Dafny model

This project models `lingeo`, a small C++ engine for convex polygons. The engine
builds a convex hull from an unordered point list by a Graham scan. It intersects
two convex polygons by Sutherland–Hodgman clipping. It measures area with the
shoelace formula. The model covers the geometry of `src/lingeo.hpp`; what it leaves out is listed at the end:

- points with tolerant equality (`point_t::equals`) and the cross product (`utils::vector_multiplication`);
- the implicit line `A*x + B*y + C = 0` (`line_t`), its half-plane classifier and its Cramer's-rule intersection;
- hull validation (`convex_polygon_t::validate_convex_hull`) in its three steps: base choice, angular sort, stack sweep;
- the constructors, `add_vertex`, `intersection`, `square`, `size` and `get_vertices` of `convex_polygon_t`.

Coordinates and the tolerance `Eps = 0.0001` are exact `real`s, not IEEE floats.

Files and modules:

| file | module | contents |
|---|---|---|
| `wrappers.dfy` | `Wrappers` | `Option` |
| `geometry.dfy` | `Geometry` | `Point`, `Equals`, `Cross`, `Line`, `LineThrough`, `Classify`, `Intersect` |
| `subsequences.dfy` | `Subsequences` | order-preserving selections, used to state what the sweep and a clip step keep |
| `hull.dfy` | `Hull` | the base, the angular order and the stack sweep as functions (`Base`, `AngleSorted`, `Sweep`), their loops as methods, and `ConvexHull`, their composition |
| `clipping.dfy` | `Clipping` | the clip step and full clipping as functions (`ClipStep`, `ClipAll`), their loops as methods, and their properties |
| `area.dfy` | `Area` | the shoelace sum and its properties |
| `polygon.dfy` | `Polygon` | class `ConvexPolygon` over a `vertices: seq<Point>` field |

The pure parts (`equals`, the cross product, the line coefficients, the
classifier, Cramer's rule) are functions. The parts that work step by step are
methods with loops. Each loop method is proved against a specification:

- `ClipByLine` and `ClipPolygon` are proved equal to the functions `ClipStep` and `ClipAll`;
- `Square` is proved equal to `AreaOf`;
- `FindBase`, `SortByAngle` and `GrahamScan` are proved equal to `Base`, `AngleSorted` and `Sweep`;
- `PairCoordinates` is proved to pair up the coordinates (`PairsOf`).

The properties are then proved about the functions: the base is the first
vertex of least x; the angular order is a permutation that starts at the base;
the sweep result is a left-turning, order-preserving selection of the sorted
list. Hull validation leaves exactly `ConvexHull(vs)`, the sweep over the
angular order around the base, and fails exactly when that has fewer than 3
vertices.

The `ConvexPolygon` class keeps the vertex list as a field. Its constructors,
`ValidateConvexHull` and `AddVertex` update that field. `Size` and `GetVertices`
are plain reads of it; `AddVertex`'s contract states the size change through `Size`.

The source reports a failed validation by throwing `std::logic_error`. In the model:

- `ValidateConvexHull` and `AddVertex` return `ok == false`;
- the factories `FromPoints` and `FromCoordinates` return `None`.

`FromPoints` stands for both vertex-list constructors: the copying one and the moving one.

Modelling choices:

- **Degenerate intersections.** The code divides by the determinant without checking it. `Intersect` returns `None` when the determinant is 0.
- **The validity guard.** The clipping loop guards each intersection point with `is_valid()`. That test compares with NaN, so it is always true. The model reads the guard as "a point was produced", i.e. `Some?`. In exact arithmetic an edge that changes side always has a crossing point (`CrossingExists`), so the `None` cases of the clip step never arise; with float rounding they could.
- **The angular sort.** `std::sort` is called with a comparator that is not a strict weak ordering: the base compares less than itself (`AngleLessBaseFirst`), and it is not transitive inside the tolerance band. With such a comparator the behaviour of `std::sort` is undefined. The model fixes one order instead: `AngleSorted` inserts the vertices one by one, in list order, each walking left past every element it compares less than. Two properties are proved about it: it is a permutation, and a point equal to the base comes first. How it differs from a library sort is listed under "Left out".

## Model

| member | source | states |
|---|---|---|
| `Geometry.EqualsReflexiveSymmetric` | src/lingeo.hpp:68-73 | tolerant equality holds of a point and itself, and does not depend on argument order |
| `Geometry.EqualsNotTransitive` | src/lingeo.hpp:68-73 | tolerant equality is not transitive: (0,0)~(0.00006,0)~(0.00012,0) but the ends differ |
| `Geometry.CrossAntisymmetric` | src/lingeo.hpp:77-79 | swapping the two arms negates the cross product, so equal arms give 0 |
| `Geometry.LineThrough` | src/lingeo.hpp:94-108 | both defining points satisfy the line equation; the normal (A, B) is zero exactly when the two points coincide |
| `Geometry.EvalIsCross` | src/lingeo.hpp:105-107 | the line equation through a, b evaluated at p equals the cross product of p - a and b - a |
| `Geometry.Classify` | src/lingeo.hpp:110-121 | three mutually exclusive outcomes: Lower iff value < -Eps, Upper iff value > Eps, SameLine iff within the band |
| `Geometry.DefiningPointsOnLine` | src/lingeo.hpp:94-121 | both points a line is built from classify as SameLine |
| `Geometry.Intersect` | src/lingeo.hpp:123-129 | no point exactly when the determinant a1*b2 - a2*b1 is zero |
| `Geometry.IntersectOnBothLines` | src/lingeo.hpp:123-129 | for a nonzero determinant the computed point satisfies both line equations |
| `Geometry.IntersectUnique` | src/lingeo.hpp:123-129 | for a nonzero determinant any point on both lines is the computed one |
| `Hull.BaseIndex` | src/lingeo.hpp:146-153 | the position found is the first of least x: no vertex has a smaller x, every earlier one a strictly larger x |
| `Hull.FindBase` | src/lingeo.hpp:146-153 | the scan returns `Base(vs)`, the first vertex whose x is minimal |
| `Hull.FirstMinXUnique` | src/lingeo.hpp:146-153 | only one position can be the first of minimal x, so the base is determined by the list |
| `Hull.AngleLessBaseFirst` | src/lingeo.hpp:156-171 | the comparator puts a base-equal point first, never puts another point before it, and says the base is less than itself |
| `Hull.SlotBaseFirst` | src/lingeo.hpp:155-171 | at insertion a base-equal point goes to the front, and no other point goes before a base-equal first element |
| `Hull.InsertPermutes` | src/lingeo.hpp:155-171 | inserting a point adds it and keeps every other element |
| `Hull.AngleSortedPermutation` | src/lingeo.hpp:155-171 | the angular order is a permutation of the vertices, and starts with a point equal to the base when the base is a vertex |
| `Hull.InsertionSlot` | src/lingeo.hpp:155-171 | the inner loop of the sort finds the slot `Slot` defines |
| `Hull.SortByAngle` | src/lingeo.hpp:155-171 | the loop computes `AngleSorted`, hence a permutation with a point equal to the base first |
| `Hull.PopNonLeftPrefix` | src/lingeo.hpp:186-197 | the pops leave a non-empty prefix of the stack |
| `Hull.PopNonLeftTop` | src/lingeo.hpp:186-197 | after the pops the two top vertices, if two remain, turn strictly left to the new point |
| `Hull.PopStack` | src/lingeo.hpp:186-197 | the pop loop with its early break at one vertex computes exactly `PopNonLeft` |
| `Hull.SweepUpToSize` | src/lingeo.hpp:173-199 | after i vertices the stack has 2 to i vertices and keeps the first and the latest |
| `Hull.SweepUpToLeftTurns` | src/lingeo.hpp:173-199 | after i vertices the stack turns strictly left throughout |
| `Hull.SweepUpToSelection` | src/lingeo.hpp:173-199 | after i vertices the stack is an order-preserving selection of the sorted list whose last position is i - 1 |
| `Hull.SweepShape` | src/lingeo.hpp:173-199 | the sweep result is an order-preserving selection of the sorted list, at least 2 and at most as long, keeps its first and last points, and every consecutive triple turns strictly left |
| `Hull.GrahamScan` | src/lingeo.hpp:173-199 | the push/pop loop computes exactly `Sweep` |
| `Hull.HullShape` | src/lingeo.hpp:141-206 | the validated list starts at the base, ends at the last point of the angular order, selects from that order, and turns strictly left |
| `Hull.HullVerticesFromInput` | src/lingeo.hpp:141-206 | every vertex of a validated hull is an input vertex (as a multiset), and the hull is no longer than the input |
| `Hull.ThreeSortedInOrder` | src/lingeo.hpp:146-171 | three points listed from a first least-x vertex keep their order through the sort when the third does not compare before the second |
| `Hull.TriangleValidates` | src/lingeo.hpp:141-206 | a triangle listed counter-clockwise from its base, turning left by at least Eps, validates with all three vertices |
| `Hull.UnitTriangleValidates` | src/lingeo.hpp:141-206 | (0,0), (1,-1), (1,1) validates unchanged |
| `Hull.CollinearTriangleFails` | src/lingeo.hpp:141-206 | a nearly collinear triple with the third point farther out loses the middle point, leaving 2 vertices, so validation fails |
| `Hull.CollinearLosesMiddle` | src/lingeo.hpp:141-206 | (0,0), (1,0), (2,0) validates to (0,0), (2,0) |
| `Clipping.CrossingExists` | src/lingeo.hpp:280-296 | an edge with one end inside and one outside always has a crossing point with the clip line |
| `Clipping.EmitInside` | src/lingeo.hpp:268-299 | one working edge emits at most 2 points, each inside the clip half-plane, either the edge start or a point on both the clip line and the edge line |
| `Clipping.ClipStepBound` | src/lingeo.hpp:266-300 | a clip step outputs at most twice as many points as the working list has |
| `Clipping.ClipStepInside` | src/lingeo.hpp:266-300 | every point a clip step outputs is inside or on the clip line, and is a working vertex or lies on the clip line |
| `Clipping.ClipStepKeepsOrder` | src/lingeo.hpp:266-300 | the working vertices that are inside appear in the output in their original relative order |
| `Clipping.ClipStepAllInside` | src/lingeo.hpp:266-300 | if every working vertex is on the desired side or on the line, the step returns the list unchanged |
| `Clipping.ClipStepAllOutside` | src/lingeo.hpp:266-300 | if every working vertex is strictly on the other side, the step returns the empty list |
| `Clipping.EmptyStaysEmpty` | src/lingeo.hpp:261-303 | once the working list is empty it stays empty through all later clip edges |
| `Clipping.ClipAllEmpty` | src/lingeo.hpp:257-306 | clipping an empty polygon gives the empty polygon |
| `Clipping.ClipAllInsideLastEdge` | src/lingeo.hpp:261-305 | every vertex of the result is inside (or on) the half-plane of the clipping polygon's last edge, and is a vertex of the previous working list or lies on the last clip line |
| `Clipping.ClipByLine` | src/lingeo.hpp:266-302 | the inner loop computes exactly the clip step of the working list |
| `Clipping.ClipPolygon` | src/lingeo.hpp:257-306 | the nested loops compute exactly the working list cut by every edge of the other polygon in turn |
| `Area.AreaNonNegative` | src/lingeo.hpp:309-316 | the area is never negative and is exactly 0 for 0, 1 or 2 vertices |
| `Area.ShoelaceIsClosedPath` | src/lingeo.hpp:311-313 | the loop's sum with wrap-around index equals the sum along the closed path v0, ..., v(n-1), v0 |
| `Area.ShoelaceRotate` | src/lingeo.hpp:309-316 | starting the vertex list at another vertex does not change the shoelace sum |
| `Polygon.PairsOfUnique` | src/lingeo.hpp:219-223 | the pairing of a coordinate list is unique |
| `Polygon.PairCoordinates` | src/lingeo.hpp:219-223 | a flat coordinate list of length n gives n/2 (rounded down) points, point k being (vec[2k], vec[2k+1]) |
| `Polygon.HullEdgeSides` | src/lingeo.hpp:173-199 | along a hull the sweep leaves, the vertex two ahead of each non-wrapping edge is strictly below that edge's line, so that edge's desired side is never Upper |
| `Polygon.ConvexPolygon.Empty` | src/lingeo.hpp:210 | a default polygon has no vertices |
| `Polygon.ConvexPolygon.Verbatim` | src/lingeo.hpp:212-217 | with validation off the given vertex list is kept verbatim |
| `Polygon.ConvexPolygon.Copy` | src/lingeo.hpp:229-231 | a copy has the same vertex list |
| `Polygon.ConvexPolygon.ValidateConvexHull` | src/lingeo.hpp:141-206 | fails with the list untouched below 3 vertices; otherwise the list becomes `ConvexHull` of the old list, and validation succeeds iff at least 3 vertices survive |
| `Polygon.ConvexPolygon.FromPoints` | src/lingeo.hpp:212-217 | without validation the list is kept verbatim; with it, fewer than 3 points fail, otherwise it succeeds iff `ConvexHull` of the list has at least 3 vertices, and then holds exactly that hull |
| `Polygon.ConvexPolygon.FromCoordinates` | src/lingeo.hpp:219-227 | pairs the coordinates into points; without validation that pairing is the vertex list; with it, fewer than 6 coordinates fail, otherwise it succeeds iff `ConvexHull` of the pairing has at least 3 vertices, and then holds exactly that hull |
| `Polygon.ConvexPolygon.AddVertex` | src/lingeo.hpp:325-331 | without validation appends the point, growing the size by 1; with it, the list becomes `ConvexHull` of the old list plus the point, failing iff that has fewer than 3 vertices |
| `Polygon.ConvexPolygon.Intersection` | src/lingeo.hpp:257-306 | always returns a new polygon, not re-validated, whose vertices are this polygon clipped by every edge of the other |
| `Polygon.ConvexPolygon.Size` | src/lingeo.hpp:333-335 | the size is the length of the vertex list `GetVertices` returns |
| `Polygon.ConvexPolygon.GetVertices` | src/lingeo.hpp:337-339 | returns the stored vertex list, in order |
| `Polygon.ConvexPolygon.Square` | src/lingeo.hpp:309-316 | returns half the absolute shoelace sum of the vertex list; never negative, 0 below 3 vertices |

## Left out

- IEEE-754 behaviour: rounding, `std::pow` and `std::abs` on floats. Everything is exact real arithmetic.
- The infinite initial base of the base search (`src/lingeo.hpp:146`). `FindBase` takes the first vertex at once, which is what that comparison does for any finite coordinate.
- Infinite or NaN coordinates from a division by a zero determinant. `Intersect` returns `None` instead.
- The NaN-based `is_valid`. In the code it is always true. The line constructor's and classifier's `assert(is_valid())` are therefore no precondition here. The guards in `intersection` are read as "a point was produced" (see above).
- The default NaN fields of `point_t` and `line_t`. Every model point is defined.
- Move constructors and move assignments, including the zeroing of a moved-from point. They are C++ ownership plumbing with no geometric meaning. A moved polygon is modelled like a copied one.
- The `noexcept` on the moving vertex-list constructor (`src/lingeo.hpp:237`). In C++ a failed validation there ends the program rather than throwing. `FromPoints` models both list constructors as throwing, i.e. as returning `None`.
- `print()` and the program in `main/main.cpp`: stream input and output.
- `Hull.SortByAngle`: `std::sort` is modelled by one insertion sort, which need not produce the order a real library gives with this comparator. libstdc++'s insertion step first compares with the front element and moves the value straight there, then walks left; `InsertionSlot` always walks left, and the two can differ because `AngleLess` is not transitive inside the tolerance band. Above 16 elements libstdc++ runs introsort. With two base-equal points among the pivot candidates its unguarded partition loop can run past the range, since the comparator says the base is less than everything. The validated hull (`ConvexHull`) is the one this insertion order produces.
- Global geometric theorems are not proved: that the hull contains every input point, that intersection is commutative, that the result of clipping lies inside every edge of both polygons. The code states none of them.
- The unit tests' float-literal expectations depend on float rounding, so they are not reproduced.
