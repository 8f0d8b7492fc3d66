/** One Bowyer-Watson insertion step: the bad-triangle partition, the removal
    of bad triangles, the cavity edge list, the removal of shared cavity edges
    and the fan of new triangles around the inserted point. */
module Insertion {
  import opened Geometry
  import opened Seqs

  // ---------------------------------------------------------------------
  // Partition into bad triangles and cavity edges

  function InCircleOf(p: Point): Triangle -> bool {
    t => CircumCircleContains(t, p)
  }

  function OutsideCircleOf(p: Point): Triangle -> bool {
    t => !CircumCircleContains(t, p)
  }

  /** The triangles whose circumcircle contains `p`, in working-list order. */
  function BadTriangles(ts: seq<Triangle>, p: Point): (bad: seq<Triangle>)
    ensures forall n :: 0 <= n < |bad| ==> bad[n] in ts && CircumCircleContains(bad[n], p)
    ensures forall i :: 0 <= i < |ts| && CircumCircleContains(ts[i], p) ==> ts[i] in bad
  {
    Filter(ts, InCircleOf(p))
  }

  /** The edges of `ts`, three per triangle, as e1, e2, e3. Used both for the
      cavity edge list of one insertion and for the final edge list. */
  function Flatten(ts: seq<Triangle>): (es: seq<Edge>)
    ensures |es| == 3 * |ts|
  {
    if |ts| == 0 then []
    else [ts[0].E1(), ts[0].E2(), ts[0].E3()] + Flatten(ts[1..])
  }

  /** Positions 3i, 3i+1 and 3i+2 of the flattened list hold the edges e1, e2
      and e3 of the i-th triangle. */
  lemma {:induction false} FlattenLayout(ts: seq<Triangle>)
    ensures forall i :: 0 <= i < |ts| ==>
      && Flatten(ts)[3 * i] == ts[i].E1()
      && Flatten(ts)[3 * i + 1] == ts[i].E2()
      && Flatten(ts)[3 * i + 2] == ts[i].E3()
  {
    if |ts| > 0 {
      var es := Flatten(ts);
      var rest := Flatten(ts[1..]);
      FlattenLayout(ts[1..]);
      forall i | 1 <= i < |ts|
        ensures es[3 * i] == ts[i].E1() && es[3 * i + 1] == ts[i].E2() && es[3 * i + 2] == ts[i].E3()
      {
        assert ts[1..][i - 1] == ts[i];
        assert es[3 * i] == rest[3 * (i - 1)];
        assert es[3 * i + 1] == rest[3 * (i - 1) + 1];
        assert es[3 * i + 2] == rest[3 * (i - 1) + 2];
      }
    }
  }

  /** Every flattened edge is an edge of one of the triangles. */
  lemma {:induction false} FlattenEdgesBelong(ts: seq<Triangle>)
    ensures forall e :: e in Flatten(ts) ==> exists u :: u in ts && u.HasEdge(e)
  {
    if |ts| > 0 {
      FlattenEdgesBelong(ts[1..]);
      forall e | e in Flatten(ts)
        ensures exists u :: u in ts && u.HasEdge(e)
      {
        if e !in [ts[0].E1(), ts[0].E2(), ts[0].E3()] {
          assert e in Flatten(ts[1..]);
          var u :| u in ts[1..] && u.HasEdge(e);
          assert u in ts;
        } else {
          assert ts[0].HasEdge(e);
        }
      }
    }
  }

  // ---------------------------------------------------------------------
  // Removal of the bad triangles

  /** Some triangle of `bad` equals `t`. */
  predicate EqualsAny(bad: seq<Triangle>, t: Triangle) {
    exists b :: b in bad && TriangleEq(b, t)
  }

  function NotEqualToAny(bad: seq<Triangle>): Triangle -> bool {
    t => !EqualsAny(bad, t)
  }

  /** The working list after erasing every triangle equal to a bad one. No
      kept triangle equals a bad one; every other triangle is kept. */
  function RemoveBad(ts: seq<Triangle>, bad: seq<Triangle>): (kept: seq<Triangle>)
    ensures forall n :: 0 <= n < |kept| ==>
      kept[n] in ts && forall b :: b in bad ==> !TriangleEq(b, kept[n])
    ensures forall i :: 0 <= i < |ts| && !EqualsAny(bad, ts[i]) ==> ts[i] in kept
  {
    Filter(ts, NotEqualToAny(bad))
  }

  /** Removing the triangles equal to a bad one removes exactly the triangles
      whose circumcircle contains `p`, and keeps the others in order. */
  lemma {:induction false} RemovalKeepsExactlyGood(ts: seq<Triangle>, p: Point)
    ensures RemoveBad(ts, BadTriangles(ts, p)) == Filter(ts, OutsideCircleOf(p))
  {
    var bad := BadTriangles(ts, p);
    forall t | t in ts
      ensures NotEqualToAny(bad)(t) == OutsideCircleOf(p)(t)
    {
      if CircumCircleContains(t, p) {
        assert t in bad && TriangleEq(t, t);
      }
      if EqualsAny(bad, t) {
        var b :| b in bad && TriangleEq(b, t);
        ContainsRespectsTriangleEq(b, t, p);
      }
    }
    FilterCongruent(ts, NotEqualToAny(bad), OutsideCircleOf(p));
  }

  // ---------------------------------------------------------------------
  // Removal of the edges shared inside the cavity

  /** The edges the inner loop pushes for outer position `i`, from inner
      position `j` on: both edges of every pair of different positions
      holding equal edges. */
  function PairsWith(polygon: seq<Edge>, i: nat, j: nat): (r: seq<Edge>)
    requires i < |polygon| && j <= |polygon|
    ensures forall b :: b in r <==>
      exists k :: j <= k < |polygon| && k != i && EdgeEq(polygon[i], polygon[k])
                  && (b == polygon[i] || b == polygon[k])
    decreases |polygon| - j
  {
    if j == |polygon| then []
    else
      (if i != j && EdgeEq(polygon[i], polygon[j]) then [polygon[i], polygon[j]] else [])
      + PairsWith(polygon, i, j + 1)
  }

  /** The edges both loops push for outer positions from `i` on. */
  function SharedFrom(polygon: seq<Edge>, i: nat): (r: seq<Edge>)
    requires i <= |polygon|
    ensures forall b :: b in r <==>
      exists a, k :: i <= a < |polygon| && 0 <= k < |polygon| && a != k
                     && EdgeEq(polygon[a], polygon[k]) && (b == polygon[a] || b == polygon[k])
    decreases |polygon| - i
  {
    if i == |polygon| then []
    else PairsWith(polygon, i, 0) + SharedFrom(polygon, i + 1)
  }

  /** The bad-edge list: an edge is in it iff it sits at one of two different
      positions of `polygon` holding equal edges. */
  function SharedEdges(polygon: seq<Edge>): (shared: seq<Edge>)
    ensures forall b :: b in shared <==>
      exists a, k :: 0 <= a < |polygon| && 0 <= k < |polygon| && a != k
                     && EdgeEq(polygon[a], polygon[k]) && (b == polygon[a] || b == polygon[k])
  {
    SharedFrom(polygon, 0)
  }

  /** Some edge of `edges` equals `e`. */
  predicate MatchesAny(edges: seq<Edge>, e: Edge) {
    exists b :: b in edges && EdgeEq(b, e)
  }

  function NotMatching(edges: seq<Edge>): Edge -> bool {
    e => !MatchesAny(edges, e)
  }

  /** The cavity edge list after erasing every edge equal to a bad edge. */
  function Dedup(polygon: seq<Edge>): (boundary: seq<Edge>)
    ensures forall n :: 0 <= n < |boundary| ==> boundary[n] in polygon
  {
    Filter(polygon, NotMatching(SharedEdges(polygon)))
  }

  /** Another position of `polygon` holds an edge equal to the one at `k`. */
  predicate RepeatedAt(polygon: seq<Edge>, k: nat)
    requires k < |polygon|
  {
    exists j :: 0 <= j < |polygon| && j != k && EdgeEq(polygon[j], polygon[k])
  }

  /** An edge matches the bad-edge list exactly when its position is repeated. */
  lemma {:induction false} SharedIffRepeated(polygon: seq<Edge>, k: nat)
    requires k < |polygon|
    ensures MatchesAny(SharedEdges(polygon), polygon[k]) <==> RepeatedAt(polygon, k)
  {
    var shared := SharedEdges(polygon);
    if RepeatedAt(polygon, k) {
      var j :| 0 <= j < |polygon| && j != k && EdgeEq(polygon[j], polygon[k]);
      EdgeEqSymmetric(polygon[j], polygon[k]);
      assert polygon[k] in shared;
      assert EdgeEq(polygon[k], polygon[k]);
    }
    if MatchesAny(shared, polygon[k]) {
      var b :| b in shared && EdgeEq(b, polygon[k]);
      var a, c :| 0 <= a < |polygon| && 0 <= c < |polygon| && a != c
                  && EdgeEq(polygon[a], polygon[c]) && (b == polygon[a] || b == polygon[c]);
      EdgeEqSymmetric(polygon[a], polygon[c]);
      if b == polygon[a] {
        if a != k {
          assert EdgeEq(polygon[a], polygon[k]);
        } else {
          assert EdgeEq(polygon[c], polygon[k]);
        }
      } else {
        if c != k {
          assert EdgeEq(polygon[c], polygon[k]);
        } else {
          EdgeEqTransitive(polygon[a], polygon[c], polygon[k]);
        }
      }
    }
  }

  /** The cavity boundary is the subsequence of the cavity edge list at
      exactly those positions whose edge no other position repeats. */
  lemma {:induction false} DedupKeepsExactlyUnrepeated(polygon: seq<Edge>)
    ensures exists idx ::
      && SubsequenceAt(Dedup(polygon), polygon, idx)
      && (forall i :: 0 <= i < |polygon| ==> (i in idx <==> !RepeatedAt(polygon, i)))
  {
    var keep := NotMatching(SharedEdges(polygon));
    var idx := Positions(polygon, keep);
    FilterKeepsOrder(polygon, keep);
    assert SubsequenceAt(Dedup(polygon), polygon, idx);
    forall i | 0 <= i < |polygon|
      ensures i in idx <==> !RepeatedAt(polygon, i)
    {
      SharedIffRepeated(polygon, i);
      assert i in idx <==> keep(polygon[i]);
    }
  }

  /** No two edges of the cavity boundary are equal. */
  lemma {:induction false} BoundaryHasNoRepeats(polygon: seq<Edge>)
    ensures var boundary := Dedup(polygon);
      forall m, n :: 0 <= m < n < |boundary| ==> !EdgeEq(boundary[m], boundary[n])
  {
    var boundary := Dedup(polygon);
    DedupKeepsExactlyUnrepeated(polygon);
    var idx :| && SubsequenceAt(boundary, polygon, idx)
               && (forall i :: 0 <= i < |polygon| ==> (i in idx <==> !RepeatedAt(polygon, i)));
    forall m, n | 0 <= m < n < |boundary|
      ensures !EdgeEq(boundary[m], boundary[n])
    {
      assert idx[n] in idx;
      assert !RepeatedAt(polygon, idx[n]);
      assert idx[m] != idx[n];
    }
  }

  // ---------------------------------------------------------------------
  // Re-triangulation of the cavity

  /** One new triangle per boundary edge, in order: the edge becomes the
      triangle's first edge and `p` its third vertex. */
  function Fan(boundary: seq<Edge>, p: Point): (r: seq<Triangle>)
    ensures |r| == |boundary|
    ensures forall k :: 0 <= k < |r| ==> r[k].E1() == boundary[k] && r[k].p3 == p
  {
    seq(|boundary|, k requires 0 <= k < |boundary| => Triangle(boundary[k].p1, boundary[k].p2, p))
  }

  /** `t` is a triangle made by the insertion of `p` into `ts`: its apex is
      `p`, its vertices are pairwise different, and its first edge is an edge
      of a triangle of `ts` whose circumcircle contains `p`. */
  predicate FromCavity(ts: seq<Triangle>, p: Point, t: Triangle) {
    && t.p3 == p
    && t.Proper()
    && exists u :: u in ts && CircumCircleContains(u, p) && u.HasEdge(t.E1())
  }

  /** Every triangle of the fan over the cavity boundary is a proper triangle
      around `p`. */
  lemma {:induction false} FanFromCavity(ts: seq<Triangle>, p: Point)
    ensures forall t :: t in Fan(Dedup(Flatten(BadTriangles(ts, p))), p) ==> FromCavity(ts, p, t)
  {
    var bad := BadTriangles(ts, p);
    var boundary := Dedup(Flatten(bad));
    var fan := Fan(boundary, p);
    FlattenEdgesBelong(bad);
    forall t | t in fan
      ensures FromCavity(ts, p, t)
    {
      var k :| 0 <= k < |fan| && fan[k] == t;
      var e := boundary[k];
      assert e in Flatten(bad);
      var u :| u in bad && u.HasEdge(e);
      ContainsImpliesProper(u, p);
      assert fan[k] == Triangle(e.p1, e.p2, p);
    }
  }

  // ---------------------------------------------------------------------
  // One insertion

  /** The working list after inserting `p`: every triangle is either an old
      one whose circumcircle does not contain `p`, or a new proper triangle
      joining `p` to an edge of a removed triangle. */
  function InsertPoint(ts: seq<Triangle>, p: Point): (r: seq<Triangle>)
    ensures forall t :: t in r ==>
      (t in ts && !CircumCircleContains(t, p)) || FromCavity(ts, p, t)
  {
    var bad := BadTriangles(ts, p);
    var polygon := Flatten(bad);
    InsertPointProvenance(ts, p);
    RemoveBad(ts, bad) + Fan(Dedup(polygon), p)
  }

  lemma {:induction false} InsertPointProvenance(ts: seq<Triangle>, p: Point)
    ensures var r := RemoveBad(ts, BadTriangles(ts, p)) + Fan(Dedup(Flatten(BadTriangles(ts, p))), p);
      forall t :: t in r ==> (t in ts && !CircumCircleContains(t, p)) || FromCavity(ts, p, t)
  {
    var kept := RemoveBad(ts, BadTriangles(ts, p));
    var fan := Fan(Dedup(Flatten(BadTriangles(ts, p))), p);
    KeptAreGood(ts, p);
    FanFromCavity(ts, p);
    forall t | t in kept + fan
      ensures (t in ts && !CircumCircleContains(t, p)) || FromCavity(ts, p, t)
    {
      if t in kept {
        assert t in ts && !CircumCircleContains(t, p);
      } else {
        assert FromCavity(ts, p, t);
      }
    }
  }

  lemma {:induction false} KeptAreGood(ts: seq<Triangle>, p: Point)
    ensures forall t :: t in RemoveBad(ts, BadTriangles(ts, p)) ==> t in ts && !CircumCircleContains(t, p)
  {
    var kept := Filter(ts, OutsideCircleOf(p));
    RemovalKeepsExactlyGood(ts, p);
    forall t | t in kept
      ensures t in ts && !CircumCircleContains(t, p)
    {
      var n :| 0 <= n < |kept| && kept[n] == t;
      assert OutsideCircleOf(p)(kept[n]);
    }
  }

  /** The insertion keeps the triangles whose circumcircle misses `p`, in
      order, then appends exactly one triangle per boundary edge, the k-th
      on the k-th boundary edge with `p` as its third vertex. */
  lemma {:induction false} InsertPointAppendsFan(ts: seq<Triangle>, p: Point)
    ensures var r := InsertPoint(ts, p);
      var good := Filter(ts, OutsideCircleOf(p));
      var boundary := Dedup(Flatten(BadTriangles(ts, p)));
      && |r| == |good| + |boundary|
      && r[..|good|] == good
      && forall k :: 0 <= k < |boundary| ==>
           r[|good| + k].E1() == boundary[k] && r[|good| + k].p3 == p
  {
    RemovalKeepsExactlyGood(ts, p);
  }
}
