/** Value types of the triangulator: points, edges and triangles, their
    equalities, and the circumcircle predicate that drives the algorithm.
    Coordinates are exact reals; the source's floating point is not modelled. */
module Geometry {

  /** A 2-D coordinate pair; equality is exact, component by component. */
  datatype Point = Point(x: real, y: real)

  /** An edge between two points. Which endpoint comes first matters for the
      value, not for `EdgeEq`. */
  datatype Edge = Edge(p1: Point, p2: Point) {

    /** The endpoints as an unordered set. */
    function Ends(): set<Point> {
      {p1, p2}
    }
  }

  /** A triangle given by three vertices; its edges are derived from them as
      e1 = (p1, p2), e2 = (p2, p3), e3 = (p3, p1). */
  datatype Triangle = Triangle(p1: Point, p2: Point, p3: Point) {

    function E1(): Edge { Edge(p1, p2) }
    function E2(): Edge { Edge(p2, p3) }
    function E3(): Edge { Edge(p3, p1) }

    function Vertices(): set<Point> {
      {p1, p2, p3}
    }

    /** True iff `v` is exactly one of the three vertices. */
    predicate ContainsVertex(v: Point) {
      v == p1 || v == p2 || v == p3
    }

    /** True iff `e` is one of the three derived edges, as stored (ordered). */
    predicate HasEdge(e: Edge) {
      e == E1() || e == E2() || e == E3()
    }

    /** Three pairwise different vertices. */
    predicate Proper() {
      p1 != p2 && p2 != p3 && p3 != p1
    }
  }

  /** Edge equality: the same two endpoints, in either order. */
  predicate EdgeEq(a: Edge, b: Edge) {
    (a.p1 == b.p1 && a.p2 == b.p2) || (a.p1 == b.p2 && a.p2 == b.p1)
  }

  /** Triangle equality: every vertex of one is a vertex of the other, and
      vice versa, whatever their labels. */
  predicate TriangleEq(a: Triangle, b: Triangle) {
    && b.ContainsVertex(a.p1) && b.ContainsVertex(a.p2) && b.ContainsVertex(a.p3)
    && a.ContainsVertex(b.p1) && a.ContainsVertex(b.p2) && a.ContainsVertex(b.p3)
  }

  /** Twice the signed area of (a, b, c): positive when counter-clockwise,
      negative when clockwise, zero when collinear. */
  function Orient(a: Point, b: Point, c: Point): real {
    (b.x - a.x) * (c.y - a.y) - (b.y - a.y) * (c.x - a.x)
  }

  /** The in-circle determinant of (a, b, c) and d. For counter-clockwise
      (a, b, c) it is positive exactly when d lies strictly inside the circle
      through a, b and c; for clockwise (a, b, c) the sign is reversed. */
  function InCircleDet(a: Point, b: Point, c: Point, d: Point): real {
    var adx, ady := a.x - d.x, a.y - d.y;
    var bdx, bdy := b.x - d.x, b.y - d.y;
    var cdx, cdy := c.x - d.x, c.y - d.y;
    Det3(adx, ady, adx * adx + ady * ady,
         bdx, bdy, bdx * bdx + bdy * bdy,
         cdx, cdy, cdx * cdx + cdy * cdy)
  }

  /** Determinant of the 3x3 matrix given row by row. */
  function Det3(a1: real, a2: real, a3: real,
                b1: real, b2: real, b3: real,
                c1: real, c2: real, c3: real): real {
    a1 * (b2 * c3 - c2 * b3) - a2 * (b1 * c3 - c1 * b3) + a3 * (b1 * c2 - c1 * b2)
  }

  /** True iff `v` lies strictly inside the circumcircle of `t`. A point on
      the circle is outside. A collinear triangle has no circumcircle and
      contains no point. */
  predicate CircumCircleContains(t: Triangle, v: Point) {
    var o := Orient(t.p1, t.p2, t.p3);
    var det := InCircleDet(t.p1, t.p2, t.p3, v);
    (o > 0.0 && det > 0.0) || (o < 0.0 && det < 0.0)
  }

  /** Edge and triangle equality ignore how the points are labelled. */
  lemma EqualityIgnoresOrder(a: Point, b: Point, c: Point)
    ensures EdgeEq(Edge(a, b), Edge(b, a))
    ensures TriangleEq(Triangle(a, b, c), Triangle(b, c, a))
    ensures TriangleEq(Triangle(a, b, c), Triangle(c, a, b))
    ensures TriangleEq(Triangle(a, b, c), Triangle(b, a, c))
    ensures TriangleEq(Triangle(a, b, c), Triangle(a, c, b))
    ensures TriangleEq(Triangle(a, b, c), Triangle(c, b, a))
  {
  }

  /** `EdgeEq` is equality of the endpoint sets. */
  lemma EdgeEqIsEndsEq(a: Edge, b: Edge)
    ensures EdgeEq(a, b) <==> a.Ends() == b.Ends()
  {
    if a.Ends() == b.Ends() {
      assert a.p1 in b.Ends() && a.p2 in b.Ends();
      assert b.p1 in a.Ends() && b.p2 in a.Ends();
    }
  }

  lemma EdgeEqSymmetric(a: Edge, b: Edge)
    requires EdgeEq(a, b)
    ensures EdgeEq(b, a)
  {
  }

  lemma EdgeEqTransitive(a: Edge, b: Edge, c: Edge)
    requires EdgeEq(a, b) && EdgeEq(b, c)
    ensures EdgeEq(a, c)
  {
  }

  /** `TriangleEq` is equality of the vertex sets. */
  lemma TriangleEqIsVerticesEq(a: Triangle, b: Triangle)
    ensures TriangleEq(a, b) <==> a.Vertices() == b.Vertices()
  {
    if a.Vertices() == b.Vertices() {
      assert a.p1 in b.Vertices() && a.p2 in b.Vertices() && a.p3 in b.Vertices();
      assert b.p1 in a.Vertices() && b.p2 in a.Vertices() && b.p3 in a.Vertices();
    }
  }

  /** A triangle with a repeated vertex is collinear. */
  lemma ImproperIsFlat(t: Triangle)
    requires !t.Proper()
    ensures Orient(t.p1, t.p2, t.p3) == 0.0
  {
    var a, b, c := t.p1, t.p2, t.p3;
    if b == c {
      assert (b.x - a.x) * (b.y - a.y) == (b.y - a.y) * (b.x - a.x);
    }
  }

  /** A triangle's own vertices lie on its circumcircle, never strictly inside. */
  lemma OwnVerticesNotInside(t: Triangle)
    ensures !CircumCircleContains(t, t.p1)
    ensures !CircumCircleContains(t, t.p2)
    ensures !CircumCircleContains(t, t.p3)
  {
    assert InCircleDet(t.p1, t.p2, t.p3, t.p1) == 0.0;
    assert InCircleDet(t.p1, t.p2, t.p3, t.p2) == 0.0;
    assert InCircleDet(t.p1, t.p2, t.p3, t.p3) == 0.0;
  }

  /** A triangle whose circumcircle holds a point is proper, and the point is
      not one of its vertices. */
  lemma ContainsImpliesProper(t: Triangle, v: Point)
    ensures CircumCircleContains(t, v) ==> t.Proper() && !t.ContainsVertex(v)
  {
    if !t.Proper() {
      ImproperIsFlat(t);
    }
    OwnVerticesNotInside(t);
  }

  /** Rotating the rows of a 3x3 determinant keeps it; swapping two negates it. */
  lemma Det3RowPermutations(a1: real, a2: real, a3: real,
                            b1: real, b2: real, b3: real,
                            c1: real, c2: real, c3: real)
    ensures Det3(b1, b2, b3, c1, c2, c3, a1, a2, a3) == Det3(a1, a2, a3, b1, b2, b3, c1, c2, c3)
    ensures Det3(b1, b2, b3, a1, a2, a3, c1, c2, c3) == -Det3(a1, a2, a3, b1, b2, b3, c1, c2, c3)
  {
  }

  /** Relabelling the vertices by a rotation keeps the circumcircle test, and
      so does swapping two of them (orientation and determinant both flip). */
  lemma ContainsIgnoresLabels(a: Point, b: Point, c: Point, v: Point)
    ensures CircumCircleContains(Triangle(b, c, a), v) == CircumCircleContains(Triangle(a, b, c), v)
    ensures CircumCircleContains(Triangle(b, a, c), v) == CircumCircleContains(Triangle(a, b, c), v)
  {
    var adx, ady := a.x - v.x, a.y - v.y;
    var bdx, bdy := b.x - v.x, b.y - v.y;
    var cdx, cdy := c.x - v.x, c.y - v.y;
    Det3RowPermutations(adx, ady, adx * adx + ady * ady,
                        bdx, bdy, bdx * bdx + bdy * bdy,
                        cdx, cdy, cdx * cdx + cdy * cdy);
    assert Orient(b, c, a) == Orient(a, b, c);
    assert Orient(b, a, c) == -Orient(a, b, c);
  }

  /** Equal triangles agree on every circumcircle test, so removing the
      triangles equal to a bad one removes no triangle that is not bad. */
  lemma ContainsRespectsTriangleEq(s: Triangle, t: Triangle, v: Point)
    requires TriangleEq(s, t)
    ensures CircumCircleContains(s, v) <==> CircumCircleContains(t, v)
  {
    if !s.Proper() || !t.Proper() {
      assert !s.Proper() && !t.Proper();
      ImproperIsFlat(s);
      ImproperIsFlat(t);
    } else {
      var a, b, c := s.p1, s.p2, s.p3;
      ContainsIgnoresLabels(a, b, c, v);
      ContainsIgnoresLabels(b, c, a, v);
      ContainsIgnoresLabels(c, a, b, v);
      ContainsIgnoresLabels(b, a, c, v);
      ContainsIgnoresLabels(a, c, b, v);
      ContainsIgnoresLabels(c, b, a, v);
      assert t == Triangle(a, b, c) || t == Triangle(b, c, a) || t == Triangle(c, a, b)
          || t == Triangle(b, a, c) || t == Triangle(a, c, b) || t == Triangle(c, b, a);
    }
  }
}
