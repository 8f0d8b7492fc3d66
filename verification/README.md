# Bowyer-Watson Delaunay triangulation: a Dafny model

This project models `Delaunay::triangulate` of `lib/delaunay.cpp`: the
incremental Bowyer-Watson construction of a 2-D Delaunay triangulation. It
works in five stages:

1. a scan of the input for its bounding box;
2. a super-triangle built around the box;
3. one insertion per input point, in input order, with four steps:
   - collect the "bad" triangles, whose circumcircle contains the point, and their edges;
   - erase every triangle equal to a bad one;
   - erase every cavity edge that another position repeats;
   - add one triangle per surviving edge, with the point as its third vertex;
4. removal of the triangles that touch a super-triangle vertex;
5. flattening of the surviving triangles' edges into the edge list.

Coordinates are exact `real`s. The value types `Point`, `Edge` and
`Triangle` live in headers that are not part of this model. The model
makes these assumptions about their equalities and predicates:

- edge equality is assumed to ignore endpoint order;
- triangle equality is assumed to mean that every vertex of one is a vertex
  of the other;
- `containsVertex` is assumed to be exact equality with one of the three
  vertices;
- `circumCircleContains` is assumed to be the standard in-circle
  determinant, sign-corrected by the triangle's orientation. It is strict, so
  a point on the circle is outside. A collinear triangle has no
  circumcircle, and the model chooses that it contains no point, so such a
  triangle never counts as bad (see Left out).

Files and modules:

- `geometry.dfy` (`Geometry`): the value types, their equalities, the
  orientation and in-circle predicates, and the facts about them.
- `seqs.dfy` (`Seqs`): the order-preserving filter behind every
  `erase(remove_if(...))` pass, characterised by the positions it keeps.
- `bounds.dfy` (`Bounds`): the bounding-box scan and the super-triangle.
- `insertion.dfy` (`Insertion`): one insertion step, stage by stage.
- `triangulator.dfy` (`Triangulator`): the object state, `Run` (the functional model of one call), the insertion loop,
  the cleanup, the edge flattening, and `Triangulate` itself.

Points where the model follows the code as written:

- The code never clears `_triangles` or `_edges`; it only appends. A caller
  reusing the object would expect each call to start from scratch.
  `Triangulate` therefore takes the object's prior state and states
  everything relative to it. See Findings.
- The code reads `vertices[0]` without a check, so a non-empty input is a
  precondition rather than an error result. The code needs one point, not
  three.
- The code reports no error for collinear input.

## Model

| member | source | states |
|---|---|---|
| Geometry.EqualityIgnoresOrder | lib/delaunay.cpp:91-101 | Edge (a,b) equals edge (b,a). A triangle (a,b,c) equals each of the other five orderings of its vertices. |
| Geometry.EdgeEqIsEndsEq | lib/delaunay.cpp:111 | Two edges are equal exactly when their endpoint sets are equal. |
| Geometry.TriangleEqIsVerticesEq | lib/delaunay.cpp:94 | Two triangles are equal exactly when their vertex sets are equal. |
| Geometry.OwnVerticesNotInside | lib/delaunay.cpp:77 | A triangle's own vertices are never strictly inside its circumcircle. |
| Geometry.ContainsImpliesProper | lib/delaunay.cpp:77 | If a circumcircle contains a point, the triangle has three different vertices and the point is not one of them. |
| Geometry.ContainsIgnoresLabels | lib/delaunay.cpp:77 | Rotating or swapping a triangle's vertices does not change the circumcircle test. |
| Geometry.ContainsRespectsTriangleEq | lib/delaunay.cpp:91-101 | Triangles equal under triangle equality agree on every circumcircle test. |
| Seqs.Filter | lib/delaunay.cpp:91-101 | The result holds only elements of the input that pass the test, and every input element that passes is in it. |
| Seqs.FilterKeepsOrder | lib/delaunay.cpp:91-101 | The filter result is the subsequence at the ascending positions whose element passes the test, and exactly those positions. |
| Bounds.BoxOf | lib/delaunay.cpp:37-48 | The box encloses every vertex, and each of its four bounds is attained by some vertex. |
| Bounds.BoundingBox | lib/delaunay.cpp:37-48 | The scan (starting from vertex 0, then visiting all vertices) gives the enclosing box with attained bounds, equal to `BoxOf`. |
| Bounds.SuperTriangleShape | lib/delaunay.cpp:50-58 | deltaMax >= 0. The super-triangle is clockwise with orientation -840 * deltaMax^2, so it is proper exactly when deltaMax > 0. |
| Bounds.SuperTriangleEncloses | lib/delaunay.cpp:50-58 | Every point of the box lies strictly inside the super-triangle when deltaMax > 0. |
| Bounds.DeltaMaxPositiveIffDistinct | lib/delaunay.cpp:37-52 | deltaMax of the input's box is positive exactly when the input holds two different points. |
| Bounds.InputInsideSuperTriangle | lib/delaunay.cpp:37-63 | For an input with two different points, every input point is strictly inside the super-triangle and is none of its vertices. |
| Insertion.BadTriangles | lib/delaunay.cpp:73-89 | The bad list holds only working triangles whose circumcircle contains the point, and holds every such triangle. |
| Insertion.Flatten | lib/delaunay.cpp:80-83 | The edge list holds exactly three edges per triangle. |
| Insertion.FlattenLayout | lib/delaunay.cpp:80-83 | Positions 3i, 3i+1 and 3i+2 hold e1, e2 and e3 of the i-th triangle. |
| Insertion.FlattenEdgesBelong | lib/delaunay.cpp:80-83 | Every listed edge is an edge of one of the triangles. |
| Insertion.RemoveBad | lib/delaunay.cpp:91-101 | No kept triangle equals a bad one, every kept triangle was in the list, and every triangle equal to no bad one is kept. |
| Insertion.RemovalKeepsExactlyGood | lib/delaunay.cpp:91-101 | Erasing the triangles equal to a bad one leaves exactly the triangles whose circumcircle misses the point, in their original order. |
| Insertion.KeptAreGood | lib/delaunay.cpp:91-101 | No triangle left after the erase has the point inside its circumcircle. |
| Insertion.PairsWith | lib/delaunay.cpp:106-116 | The inner loop pushes an edge exactly when it sits at the outer position or at a later inner position, and the two positions differ and hold equal edges. |
| Insertion.SharedFrom | lib/delaunay.cpp:104-117 | Both loops from an outer position on push exactly the edges of pairs of different positions holding equal edges. |
| Insertion.SharedEdges | lib/delaunay.cpp:103-117 | The bad-edge list holds an edge exactly when it sits at one of two different cavity positions holding equal edges. |
| Insertion.Dedup | lib/delaunay.cpp:119-126 | Every surviving edge comes from the cavity edge list. |
| Insertion.SharedIffRepeated | lib/delaunay.cpp:103-126 | A cavity edge matches the bad-edge list exactly when another position holds an equal edge. |
| Insertion.DedupKeepsExactlyUnrepeated | lib/delaunay.cpp:103-126 | The boundary is the subsequence of the cavity edge list at exactly the positions no other position repeats, in order. |
| Insertion.BoundaryHasNoRepeats | lib/delaunay.cpp:103-126 | No two edges of the cavity boundary are equal. |
| Insertion.Fan | lib/delaunay.cpp:128-129 | There is one new triangle per boundary edge. The k-th has the k-th edge as its e1 and the inserted point as its third vertex. |
| Insertion.FanFromCavity | lib/delaunay.cpp:128-129 | Every new triangle is proper, its apex is the point, and its e1 is an edge of a removed bad triangle. |
| Insertion.InsertPointProvenance | lib/delaunay.cpp:70-129 | After an insertion, each triangle is either an old one whose circumcircle misses the point or a new proper triangle on a removed triangle's edge. |
| Insertion.InsertPoint | lib/delaunay.cpp:70-129 | Same as `InsertPointProvenance`, as the postcondition of one insertion. |
| Insertion.InsertPointAppendsFan | lib/delaunay.cpp:91-129 | An insertion keeps the good triangles in order as a prefix. It then appends exactly one triangle per boundary edge: edge k becomes e1 and the point becomes the third vertex. |
| Triangulator.RemoveSuper | lib/delaunay.cpp:133-135 | No kept triangle has a super-triangle vertex. Every triangle without one is kept. |
| Triangulator.CleanupKeepsProvenance | lib/delaunay.cpp:133-135 | After the cleanup, every triangle is proper or held before the call. Its vertices are input points or vertices held before. |
| Triangulator.InsertPointKeepsInvariant | lib/delaunay.cpp:65-131 | One insertion keeps the loop invariant: each triangle is from the starting list or proper, and its vertices are starting vertices or points inserted so far. |
| Triangulator.InsertAllKeepsInvariant | lib/delaunay.cpp:65-131 | After any number of insertions, every triangle is from the starting list or proper, and its vertices are starting vertices or inserted points. |
| Triangulator.InsertEach | lib/delaunay.cpp:65-131 | The insertion loop computes the fold of insertions over the input, and leaves triangles with that provenance. |
| Triangulator.AppendFlattenedLayout | lib/delaunay.cpp:137-142 | Appending puts e1, e2 and e3 of the i-th triangle right after the old edges, at offsets 3i, 3i+1 and 3i+2. |
| Triangulator.StaleEdgesRemain | lib/delaunay.cpp:137-142 | On an object that already holds edges, the edge list has more than three edges per triangle and is not the triangles' edges. |
| Triangulator.RunKeepsProvenance | lib/delaunay.cpp:63-135 | After a call, no triangle has a super-triangle vertex. Each is proper unless held before, and its vertices are input points or vertices held before. |
| Triangulator.RunEdgeLayout | lib/delaunay.cpp:137-142 | After a call, the edge list is the edges held before followed by e1, e2, e3 of each resulting triangle, in order, and the stored vertices are the input. |
| Triangulator.Triangulate | lib/delaunay.cpp:31-145 | The scan, the super-triangle, the insertion loop, the cleanup and the flattening compute `Run`, the functional model of a call on the object's current lists. |
| Triangulator.TriangulateFresh | lib/delaunay.cpp:31-145 | With the lists cleared first, the result is the run from an empty object, whatever the object held. |
| Triangulator.FreshRunProperties | lib/delaunay.cpp:31-145 | From an empty object, every triangle is proper, has input points as vertices and no super-triangle vertex, and the edge list is exactly the triangles' edges. |

## Left out

- Floating point: `double`/`float` rounding, the `2.f` literal and the
  circumcentre arithmetic are not modelled; coordinates are exact reals.
- The headers defining `Vec2f`, `Edge` and `Triangle` are not part of this
  model. Their `==`, `containsVertex` and `circumCircleContains` are
  modelled under the assumptions stated above. The in-circle determinant
  is not proved equivalent to a circumcentre-and-radius computation.
- Triangles keep no stored edge fields. `e1`, `e2` and `e3` are derived from
  the vertices. They have the same values the constructor would store.
- The global Delaunay (empty circumcircle) property, coverage of the convex
  hull, and independence from input order are geometric theorems. The code
  does not establish them itself, and they are not stated.
- End-to-end examples (a unit square, a single triangle, collinear input)
  are not stated. Proving them would need every filter of every insertion
  unfolded over concrete in-circle determinants.
- Geometry.CircumCircleContains: a collinear triangle is modelled as
  containing no point. The source's behaviour there, a division by zero in
  the circumcentre computation, is not modelled.
- The commented-out debug output is not modelled.
- The copy into `_vertices` is modelled only as the stored `vertices` field.
- Insertion.SharedEdges: states which edges the bad-edge list holds, not
  their order or multiplicity. Only membership matters to the erase that
  follows.
- Triangulator.Triangulate: does not state the Delaunay property of its
  result (see above).

## Findings

| source | as written | input that shows it | evidently intended | confidence | as-written member | corrected member |
|---|---|---|---|---|---|---|
| lib/delaunay.cpp:63 | `_triangles` and `_edges` are appended to and never cleared. A second call keeps the first call's triangles in its working list and its edges at the front of the edge list. | A second call on an object whose edge list is non-empty returns more than three edges per triangle. | Each call starts from empty lists, so the edge list is exactly the triangles' edges and the result depends on the input alone (proved in `FreshRunProperties`). | medium, not executed | Triangulator.StaleEdgesRemain | Triangulator.TriangulateFresh |
