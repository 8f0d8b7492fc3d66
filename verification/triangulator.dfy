/** The triangulator object and its one operation: bounding box,
    super-triangle, one insertion per input point, removal of the triangles
    touching the super-triangle, and flattening of the survivors' edges. */
module Triangulator {
  import opened Geometry
  import opened Seqs
  import opened Bounds
  import opened Insertion

  /** The triangulator's state: the stored input, the working (and finally
      resulting) triangle list, and the output edge list. */
  datatype Delaunay = Delaunay(vertices: seq<Point>, triangles: seq<Triangle>, edges: seq<Edge>)

  /** The working list after inserting `points` one after the other. */
  function InsertAll(ts: seq<Triangle>, points: seq<Point>): seq<Triangle>
    decreases |points|
  {
    if |points| == 0 then ts
    else InsertPoint(InsertAll(ts, points[..|points| - 1]), points[|points| - 1])
  }

  /** The state a call leaves, as written: the super-triangle joins the
      triangles already held and the new edges follow the edges already held. */
  function Run(d: Delaunay, vertices: seq<Point>): Delaunay
    requires |vertices| > 0
  {
    var st := SuperTriangle(BoxOf(vertices));
    var result := RemoveSuper(InsertAll(d.triangles + [st], vertices), st);
    Delaunay(vertices, result, d.edges + Flatten(result))
  }

  /** A second call on an object that already holds edges returns an edge
      list that is not the edges of its triangles: the stale edges stay in
      front, so there are more than three edges per triangle. */
  lemma StaleEdgesRemain(d: Delaunay, vertices: seq<Point>)
    requires |vertices| > 0
    requires |d.edges| > 0
    ensures |Run(d, vertices).edges| > 3 * |Run(d, vertices).triangles|
    ensures Run(d, vertices).edges != Flatten(Run(d, vertices).triangles)
  {
  }

  /** `t` has none of the vertices of `st`. */
  predicate AvoidsVertices(t: Triangle, st: Triangle) {
    !t.ContainsVertex(st.p1) && !t.ContainsVertex(st.p2) && !t.ContainsVertex(st.p3)
  }

  /** The cleanup test, as a function value for `Filter`. */
  function TouchesNone(st: Triangle): Triangle -> bool {
    (t: Triangle) => AvoidsVertices(t, st)
  }

  /** The cleanup pass: no kept triangle has a vertex of the super-triangle
      `st`, and every triangle that has none is kept. */
  function RemoveSuper(ts: seq<Triangle>, st: Triangle): (r: seq<Triangle>)
    ensures forall n :: 0 <= n < |r| ==> r[n] in ts && AvoidsVertices(r[n], st)
    ensures forall i :: 0 <= i < |ts| && AvoidsVertices(ts[i], st) ==> ts[i] in r
  {
    Filter(ts, TouchesNone(st))
  }

  /** `v` is one of `points` or a vertex of a triangle of `ts`. */
  predicate Known(v: Point, ts: seq<Triangle>, points: seq<Point>) {
    v in points || exists u :: u in ts && u.ContainsVertex(v)
  }

  /** Every vertex of `t` is known from `ts` and `points`. */
  predicate Drawn(t: Triangle, ts: seq<Triangle>, points: seq<Point>) {
    Known(t.p1, ts, points) && Known(t.p2, ts, points) && Known(t.p3, ts, points)
  }

  /** One insertion preserves the loop's invariant: with `start` the list the
      loop began from and `seen` the points inserted so far, every triangle
      is from `start` or proper, and is drawn on `start` and `seen`. */
  lemma {:induction false} InsertPointKeepsInvariant(
    ts: seq<Triangle>, start: seq<Triangle>, seen: seq<Point>, p: Point)
    requires forall t :: t in ts ==> (t in start || t.Proper()) && Drawn(t, start, seen)
    ensures forall t :: t in InsertPoint(ts, p) ==>
      (t in start || t.Proper()) && Drawn(t, start, seen + [p])
  {
    forall t | t in InsertPoint(ts, p)
      ensures (t in start || t.Proper()) && Drawn(t, start, seen + [p])
    {
      forall v | Known(v, start, seen)
        ensures Known(v, start, seen + [p])
      {
      }
      if !(t in ts) {
        assert FromCavity(ts, p, t);
        var u :| u in ts && CircumCircleContains(u, p) && u.HasEdge(t.E1());
        assert u.ContainsVertex(t.p1) && u.ContainsVertex(t.p2);
        assert Drawn(u, start, seen);
      }
    }
  }

  /** The fold of insertions keeps the provenance invariant: every triangle
      it leaves is from `start` or proper, and has only vertices of `start`
      or of `points` as vertices. */
  lemma {:induction false} InsertAllKeepsInvariant(start: seq<Triangle>, points: seq<Point>)
    ensures forall t :: t in InsertAll(start, points) ==>
      (t in start || t.Proper()) && Drawn(t, start, points)
    decreases |points|
  {
    if |points| == 0 {
      forall t | t in start
        ensures Drawn(t, start, points)
      {
        assert t.ContainsVertex(t.p1) && t.ContainsVertex(t.p2) && t.ContainsVertex(t.p3);
      }
    } else {
      var init := points[..|points| - 1];
      InsertAllKeepsInvariant(start, init);
      InsertPointKeepsInvariant(InsertAll(start, init), start, init, points[|points| - 1]);
      assert init + [points[|points| - 1]] == points;
    }
  }

  /** The insertion loop: each point in input order re-triangulates the
      working list, which ends as the fold of insertions. Every triangle it
      leaves is from `start` or proper, and has only vertices of `start` or
      input points as vertices. */
  method InsertEach(start: seq<Triangle>, vertices: seq<Point>) returns (ts: seq<Triangle>)
    ensures ts == InsertAll(start, vertices)
    ensures forall t :: t in ts ==> (t in start || t.Proper()) && Drawn(t, start, vertices)
  {
    ts := start;
    var k := 0;
    while k < |vertices|
      invariant 0 <= k <= |vertices|
      invariant ts == InsertAll(start, vertices[..k])
    {
      PrefixStep(vertices, k);
      ts := InsertPoint(ts, vertices[k]);
      k := k + 1;
    }
    assert vertices[..k] == vertices;
    InsertAllKeepsInvariant(start, vertices);
  }

  lemma PrefixStep(vertices: seq<Point>, k: nat)
    requires k < |vertices|
    ensures vertices[..k + 1] == vertices[..k] + [vertices[k]]
    ensures vertices[..k + 1][..k] == vertices[..k]
    ensures vertices[..k + 1][k] == vertices[k]
  {
  }

  /** After the cleanup, no triangle is the super-triangle `st` or draws on
      its vertices, so the provenance invariant holds without it. */
  lemma {:induction false} CleanupKeepsProvenance(
    ts: seq<Triangle>, prior: seq<Triangle>, st: Triangle, points: seq<Point>)
    requires forall t :: t in ts ==> (t in prior + [st] || t.Proper()) && Drawn(t, prior + [st], points)
    ensures forall t :: t in RemoveSuper(ts, st) ==> (t in prior || t.Proper()) && Drawn(t, prior, points)
  {
    var r := RemoveSuper(ts, st);
    forall t | t in r
      ensures (t in prior || t.Proper()) && Drawn(t, prior, points)
    {
      var n :| 0 <= n < |r| && r[n] == t;
      assert t != st;
      assert Drawn(t, prior + [st], points);
    }
  }

  /** Appending the flattened edges of `ts` to `edges` puts the e1, e2, e3 of
      the i-th triangle at positions |edges| + 3i, +1, +2. */
  lemma AppendFlattenedLayout(edges: seq<Edge>, ts: seq<Triangle>)
    ensures var all := edges + Flatten(ts);
      && |all| == |edges| + 3 * |ts|
      && all[..|edges|] == edges
      && forall i :: 0 <= i < |ts| ==>
           && all[|edges| + 3 * i] == ts[i].E1()
           && all[|edges| + 3 * i + 1] == ts[i].E2()
           && all[|edges| + 3 * i + 2] == ts[i].E3()
  {
    var flat := Flatten(ts);
    var all := edges + flat;
    FlattenLayout(ts);
    forall i | 0 <= i < |ts|
      ensures && all[|edges| + 3 * i] == ts[i].E1()
              && all[|edges| + 3 * i + 1] == ts[i].E2()
              && all[|edges| + 3 * i + 2] == ts[i].E3()
    {
      assert all[|edges| + 3 * i] == flat[3 * i];
      assert all[|edges| + 3 * i + 1] == flat[3 * i + 1];
      assert all[|edges| + 3 * i + 2] == flat[3 * i + 2];
    }
  }

  /** What a call leaves in the triangle list: no triangle has a vertex of
      the super-triangle, each is proper unless it was held before, and
      each has only input points or previously held vertices as vertices. */
  lemma RunKeepsProvenance(d: Delaunay, vertices: seq<Point>)
    requires |vertices| > 0
    ensures forall t :: t in Run(d, vertices).triangles ==>
      && AvoidsVertices(t, SuperTriangle(BoxOf(vertices)))
      && (t in d.triangles || t.Proper())
      && Drawn(t, d.triangles, vertices)
  {
    var st := SuperTriangle(BoxOf(vertices));
    var ts := InsertAll(d.triangles + [st], vertices);
    InsertAllKeepsInvariant(d.triangles + [st], vertices);
    CleanupKeepsProvenance(ts, d.triangles, st, vertices);
  }

  /** What a call leaves in the edge list: the edges held before, then the
      e1, e2, e3 of each resulting triangle in order. */
  lemma RunEdgeLayout(d: Delaunay, vertices: seq<Point>)
    requires |vertices| > 0
    ensures var next := Run(d, vertices);
      && next.vertices == vertices
      && |next.edges| == |d.edges| + 3 * |next.triangles|
      && next.edges[..|d.edges|] == d.edges
      && forall i :: 0 <= i < |next.triangles| ==>
           && next.edges[|d.edges| + 3 * i] == next.triangles[i].E1()
           && next.edges[|d.edges| + 3 * i + 1] == next.triangles[i].E2()
           && next.edges[|d.edges| + 3 * i + 2] == next.triangles[i].E3()
  {
    AppendFlattenedLayout(d.edges, Run(d, vertices).triangles);
  }

  /** From cleared lists, a call yields proper triangles whose three vertices
      are input points and none of the super-triangle's, and an edge list
      that is exactly the triangles' edges. */
  lemma FreshRunProperties(vertices: seq<Point>)
    requires |vertices| > 0
    ensures var next := Run(Delaunay([], [], []), vertices);
      && next.edges == Flatten(next.triangles)
      && |next.edges| == 3 * |next.triangles|
      && forall t :: t in next.triangles ==>
           && t.Proper()
           && t.p1 in vertices && t.p2 in vertices && t.p3 in vertices
           && AvoidsVertices(t, SuperTriangle(BoxOf(vertices)))
  {
    var next := Run(Delaunay([], [], []), vertices);
    RunKeepsProvenance(Delaunay([], [], []), vertices);
    assert [] + Flatten(next.triangles) == Flatten(next.triangles);
    forall t | t in next.triangles
      ensures t.p1 in vertices && t.p2 in vertices && t.p3 in vertices
    {
      assert Drawn(t, [], vertices);
    }
  }

  /** The triangulation of `vertices` by an object in state `d`: the
      bounding-box scan, the super-triangle, the insertion loop, the cleanup
      and the flattening compute `Run`. The source never clears its lists, so
      the super-triangle joins the triangles already held and the edges
      follow the edges already held. The returned triangles are
      `next.triangles`, the object's stored list. */
  method Triangulate(d: Delaunay, vertices: seq<Point>) returns (next: Delaunay)
    requires |vertices| > 0
    ensures next == Run(d, vertices)
  {
    var box := BoundingBox(vertices);
    var st := SuperTriangle(box);
    var ts := InsertEach(d.triangles + [st], vertices);
    var mesh := RemoveSuper(ts, st);
    next := Delaunay(vertices, mesh, d.edges + Flatten(mesh));
  }

  /** The triangulation with the object's lists cleared first, as each call
      is meant to start from scratch: the result is the run from an empty
      state, whatever the object held. */
  method TriangulateFresh(d: Delaunay, vertices: seq<Point>) returns (next: Delaunay)
    requires |vertices| > 0
    ensures next == Run(Delaunay([], [], []), vertices)
  {
    var cleared := Delaunay(d.vertices, [], []);
    next := Triangulate(cleared, vertices);
  }
}
