/** The first two stages of the triangulation: the axis-aligned bounding box
    of the input and the super-triangle built around it. */
module Bounds {
  import opened Geometry

  datatype Box = Box(minX: real, minY: real, maxX: real, maxY: real)

  /** `v` lies in the closed box. */
  predicate Encloses(box: Box, v: Point) {
    box.minX <= v.x <= box.maxX && box.minY <= v.y <= box.maxY
  }

  /** One step of the scan: each bound moves only when `v` lies beyond it. */
  function Extend(box: Box, v: Point): Box {
    Box(if v.x < box.minX then v.x else box.minX,
        if v.y < box.minY then v.y else box.minY,
        if v.x > box.maxX then v.x else box.maxX,
        if v.y > box.maxY then v.y else box.maxY)
  }

  /** The box the scan reaches after `vertices`, starting from the first one. */
  function BoxOf(vertices: seq<Point>): (box: Box)
    requires |vertices| > 0
    ensures forall i :: 0 <= i < |vertices| ==> Encloses(box, vertices[i])
    ensures exists i :: 0 <= i < |vertices| && vertices[i].x == box.minX
    ensures exists i :: 0 <= i < |vertices| && vertices[i].y == box.minY
    ensures exists i :: 0 <= i < |vertices| && vertices[i].x == box.maxX
    ensures exists i :: 0 <= i < |vertices| && vertices[i].y == box.maxY
  {
    if |vertices| == 1 then Box(vertices[0].x, vertices[0].y, vertices[0].x, vertices[0].y)
    else
      var init := vertices[..|vertices| - 1];
      assert forall i :: 0 <= i < |init| ==> init[i] == vertices[i];
      Extend(BoxOf(init), vertices[|vertices| - 1])
  }

  /** The scan over the input: the bounds start at the first vertex and the
      loop then visits every vertex, the first included. The result encloses
      every vertex and each bound is attained by some vertex. */
  method BoundingBox(vertices: seq<Point>) returns (box: Box)
    requires |vertices| > 0
    ensures box == BoxOf(vertices)
    ensures forall i :: 0 <= i < |vertices| ==> Encloses(box, vertices[i])
    ensures exists i :: 0 <= i < |vertices| && vertices[i].x == box.minX
    ensures exists i :: 0 <= i < |vertices| && vertices[i].y == box.minY
    ensures exists i :: 0 <= i < |vertices| && vertices[i].x == box.maxX
    ensures exists i :: 0 <= i < |vertices| && vertices[i].y == box.maxY
  {
    box := Box(vertices[0].x, vertices[0].y, vertices[0].x, vertices[0].y);
    var i := 0;
    while i < |vertices|
      invariant 0 <= i <= |vertices|
      invariant box == BoxOf(vertices[..if i == 0 then 1 else i])
    {
      if i > 0 {
        assert vertices[..i + 1][..i] == vertices[..i];
      }
      box := Extend(box, vertices[i]);
      i := i + 1;
    }
    assert vertices[..i] == vertices;
  }

  /** The larger side of the box (`std::max(dx, dy)`). */
  function DeltaMax(box: Box): real {
    var dx := box.maxX - box.minX;
    var dy := box.maxY - box.minY;
    if dx < dy then dy else dx
  }

  /** The super-triangle around the box: apex above the centre, base below,
      each 20 times the larger side away from the centre. */
  function SuperTriangle(box: Box): Triangle {
    var deltaMax := DeltaMax(box);
    var midx := (box.minX + box.maxX) / 2.0;
    var midy := (box.minY + box.maxY) / 2.0;
    Triangle(Point(midx - 20.0 * deltaMax, midy - deltaMax),
             Point(midx, midy + 20.0 * deltaMax),
             Point(midx + 20.0 * deltaMax, midy - deltaMax))
  }

  /** `q` lies strictly inside the triangle: on the same side of all three
      edges as the opposite vertex. */
  predicate StrictlyInside(t: Triangle, q: Point) {
    || (Orient(t.p1, t.p2, q) > 0.0 && Orient(t.p2, t.p3, q) > 0.0 && Orient(t.p3, t.p1, q) > 0.0)
    || (Orient(t.p1, t.p2, q) < 0.0 && Orient(t.p2, t.p3, q) < 0.0 && Orient(t.p3, t.p1, q) < 0.0)
  }

  lemma MulPosNeg(a: real, b: real)
    requires a > 0.0 && b < 0.0
    ensures a * b < 0.0
  {
  }

  /** The super-triangle is clockwise with twice-area 840 * deltaMax^2, so it
      is proper exactly when the box is not a single point. */
  lemma SuperTriangleShape(box: Box)
    requires box.minX <= box.maxX && box.minY <= box.maxY
    ensures DeltaMax(box) >= 0.0
    ensures var t := SuperTriangle(box);
      Orient(t.p1, t.p2, t.p3) == -840.0 * DeltaMax(box) * DeltaMax(box)
    ensures SuperTriangle(box).Proper() <==> DeltaMax(box) > 0.0
  {
    var d := DeltaMax(box);
    var t := SuperTriangle(box);
    assert Orient(t.p1, t.p2, t.p3) == (20.0 * d) * 0.0 - (21.0 * d) * (40.0 * d);
    if d > 0.0 {
      assert t.p1.x < t.p2.x < t.p3.x;
    }
  }

  /** Every point of a box with positive extent lies strictly inside the
      super-triangle built around it. */
  lemma SuperTriangleEncloses(box: Box, q: Point)
    requires Encloses(box, q)
    requires DeltaMax(box) > 0.0
    ensures StrictlyInside(SuperTriangle(box), q)
  {
    var d := DeltaMax(box);
    var t := SuperTriangle(box);
    var u := q.x - (box.minX + box.maxX) / 2.0;
    var v := q.y - (box.minY + box.maxY) / 2.0;
    assert -d / 2.0 <= u <= d / 2.0 && -d / 2.0 <= v <= d / 2.0;
    var a1 := 20.0 * v - 21.0 * u - 400.0 * d;
    var a2 := 20.0 * v + 21.0 * u - 400.0 * d;
    var a3 := -40.0 * v - 40.0 * d;
    assert Orient(t.p1, t.p2, q) == d * a1;
    assert Orient(t.p2, t.p3, q) == d * a2;
    assert Orient(t.p3, t.p1, q) == d * a3;
    MulPosNeg(d, a1);
    MulPosNeg(d, a2);
    MulPosNeg(d, a3);
  }

  /** The box of the input has positive extent exactly when the input holds
      two different points; otherwise the super-triangle collapses to a point. */
  lemma DeltaMaxPositiveIffDistinct(vertices: seq<Point>)
    requires |vertices| > 0
    ensures DeltaMax(BoxOf(vertices)) > 0.0 <==>
      exists i, j :: 0 <= i < |vertices| && 0 <= j < |vertices| && vertices[i] != vertices[j]
  {
    var box := BoxOf(vertices);
    if DeltaMax(box) > 0.0 {
      if box.minX < box.maxX {
        var i :| 0 <= i < |vertices| && vertices[i].x == box.minX;
        var j :| 0 <= j < |vertices| && vertices[j].x == box.maxX;
        assert vertices[i] != vertices[j];
      } else {
        var i :| 0 <= i < |vertices| && vertices[i].y == box.minY;
        var j :| 0 <= j < |vertices| && vertices[j].y == box.maxY;
        assert vertices[i] != vertices[j];
      }
    } else {
      forall i | 0 <= i < |vertices|
        ensures vertices[i] == Point(box.minX, box.minY)
      {
        assert Encloses(box, vertices[i]);
      }
    }
  }

  /** When the input holds two different points, each input point lies
      strictly inside the super-triangle and so is none of its vertices. */
  lemma InputInsideSuperTriangle(vertices: seq<Point>, i: nat)
    requires i < |vertices|
    requires exists a, b :: 0 <= a < |vertices| && 0 <= b < |vertices| && vertices[a] != vertices[b]
    ensures StrictlyInside(SuperTriangle(BoxOf(vertices)), vertices[i])
    ensures !SuperTriangle(BoxOf(vertices)).ContainsVertex(vertices[i])
  {
    var box := BoxOf(vertices);
    var t := SuperTriangle(box);
    var q := vertices[i];
    DeltaMaxPositiveIffDistinct(vertices);
    SuperTriangleEncloses(box, q);
    assert Orient(t.p1, t.p2, t.p1) == 0.0;
    assert Orient(t.p2, t.p3, t.p2) == 0.0;
    assert Orient(t.p3, t.p1, t.p3) == 0.0;
  }
}
