/** The rounded-polygon outliner (`MathsUtils.GetRoundedPolygonPolylinePoints`):
    one arc about every vertex of an ordered vertex loop, joined in vertex
    order. */
module RoundedPolygon {
  import opened Vectors
  import opened Primitives
  import opened Arc
  import opened Sequences

  /** The cyclic predecessor of vertex `i`, computed as the source does with
      C#'s truncating remainder and an absolute value. */
  function PrevIndex(i: int, count: int): (p: int)
    requires 0 <= i < count
    ensures 0 <= p < count
    ensures p == if i == 0 then count - 1 else i - 1
  {
    Abs(CsRemainder(i + count - 1, count))
  }

  /** The cyclic successor of vertex `i`, computed likewise. */
  function NextIndex(i: int, count: int): (q: int)
    requires 0 <= i < count
    ensures 0 <= q < count
    ensures q == if i == count - 1 then 0 else i + 1
  {
    Abs(CsRemainder(i + count + 1, count))
  }

  /** The direction angle of the horizontal outward normal of an edge:
      `up x edge` with its vertical part zeroed and normalised, turned into
      an angle as `acos(x) * sign(z)`. */
  function EdgeAngle(m: MathLib, edge: Point3): (angle: real)
    ensures var normal := m.normalize(Point3(edge.z, 0.0, -edge.x));
            angle == m.acos(normal.x) || angle == -m.acos(normal.x)
    ensures AnglesInRange(m) ==> -(m.pi as real) <= angle <= m.pi
  {
    LemmaCrossUpIsHorizontal(edge);
    var normal := m.normalize(WithY(Cross(Up, edge), 0.0));
    m.acos(normal.x) * Sign(normal.z)
  }

  /** The fillet arc about vertex `i`: from the outward normal angle of the
      incoming edge to that of the outgoing edge. */
  function CornerArc(m: MathLib, vertices: seq<Point3>, radius: real, n: int, i: int): (arc: seq<Point3>)
    requires 0 <= i < |vertices|
    ensures forall p :: p in arc ==> p.y == vertices[i].y
  {
    var count := |vertices|;
    var fromPrev := Sub(vertices[i], vertices[PrevIndex(i, count)]);
    var toNext := Sub(vertices[NextIndex(i, count)], vertices[i]);
    ArcPoints(m, vertices[i], radius, n, EdgeAngle(m, fromPrev), EdgeAngle(m, toNext))
  }

  /** The fillet arcs of vertices `0 .. k - 1`, in vertex order. */
  function CornerArcsUpTo(m: MathLib, vertices: seq<Point3>, radius: real, n: int, k: int)
    : (arcs: seq<seq<Point3>>)
    requires 0 <= k <= |vertices|
    ensures |arcs| == k
  {
    if k == 0 then [] else CornerArcsUpTo(m, vertices, radius, n, k - 1) + [CornerArc(m, vertices, radius, n, k - 1)]
  }

  /** Entry `i` of the arcs up to `k` is the arc of vertex `i`. */
  lemma {:induction false} LemmaCornerArcsUpToIndex(m: MathLib, vertices: seq<Point3>, radius: real, n: int,
                                                     k: int, i: int)
    requires 0 <= i < k <= |vertices|
    ensures CornerArcsUpTo(m, vertices, radius, n, k)[i] == CornerArc(m, vertices, radius, n, i)
  {
    var prefix := CornerArcsUpTo(m, vertices, radius, n, k - 1);
    var last := CornerArc(m, vertices, radius, n, k - 1);
    assert CornerArcsUpTo(m, vertices, radius, n, k) == prefix + [last];
    if i < k - 1 {
      LemmaCornerArcsUpToIndex(m, vertices, radius, n, k - 1, i);
      assert (prefix + [last])[i] == prefix[i];
    }
  }

  /** The outline as a pure function; `None` is a null array. */
  function RoundedPolygonPoints(m: MathLib, vertices: Option<seq<Point3>>, radius: real, n: int)
    : (r: seq<Point3>)
    ensures vertices.None? || vertices.value == [] ==> r == []
  {
    match vertices
    case None => []
    case Some(vs) =>
      if |vs| == 1 then
        ArcPoints(m, vs[0], radius, n, 0.0, m.TwoPi())
      else if |vs| > 1 then
        Flatten(CornerArcsUpTo(m, vs, radius, n, |vs|))
      else
        []
  }

  /** The heights of the horizontal planes through the vertices. */
  function Levels(vs: seq<Point3>): set<real> {
    set j | 0 <= j < |vs| :: vs[j].y
  }

  /** Every output point lies on the horizontal plane through some vertex:
      no arc leaves its centre's plane. */
  lemma LemmaOutlineOnVertexPlanes(m: MathLib, vs: seq<Point3>, radius: real, n: int)
    ensures forall p :: p in RoundedPolygonPoints(m, Some(vs), radius, n) ==> p.y in Levels(vs)
  {
    if |vs| == 1 {
      assert vs[0].y in Levels(vs);
    } else if |vs| > 1 {
      var arcs := CornerArcsUpTo(m, vs, radius, n, |vs|);
      forall i | 0 <= i < |arcs|
        ensures forall p: Point3 :: p in arcs[i] ==> p.y in Levels(vs)
      {
        LemmaCornerArcsUpToIndex(m, vs, radius, n, |vs|, i);
        assert vs[i].y in Levels(vs);
      }
      LemmaFlattenOnPlanes(arcs, Levels(vs));
    }
  }

  /** Every point of a flattening of arcs whose points all have heights in
      `levels` has its height in `levels`. */
  lemma {:induction false} LemmaFlattenOnPlanes(arcs: seq<seq<Point3>>, levels: set<real>)
    requires forall i :: 0 <= i < |arcs| ==> forall p: Point3 :: p in arcs[i] ==> p.y in levels
    ensures forall p: Point3 :: p in Flatten(arcs) ==> p.y in levels
  {
    if |arcs| > 0 {
      assert forall i :: 0 <= i < |arcs| - 1 ==> arcs[1..][i] == arcs[i + 1];
      LemmaFlattenOnPlanes(arcs[1..], levels);
      assert Flatten(arcs) == arcs[0] + Flatten(arcs[1..]);
    }
  }

  /** One iteration of the source's loop: the outward normal angles of
      the edges into and out of vertex `i`, and the arc between them. The
      neighbours are the cyclic ones, whatever the remainder arithmetic. */
  method GetCornerArc(m: MathLib, vs: seq<Point3>, radius: real, n: int, i: int)
    returns (arc: seq<Point3>)
    requires 0 <= i < |vs|
    ensures var prev := vs[if i == 0 then |vs| - 1 else i - 1];
            var next := vs[if i == |vs| - 1 then 0 else i + 1];
            arc == ArcPoints(m, vs[i], radius, n, EdgeAngle(m, Sub(vs[i], prev)), EdgeAngle(m, Sub(next, vs[i])))
    ensures forall p :: p in arc ==> p.y == vs[i].y
    ensures AnglesInRange(m) ==> |arc| <= Max(n, 1)
  {
    var numVertices := |vs|;
    var prevIdx := Abs(CsRemainder(i + numVertices - 1, numVertices));
    var nextIdx := Abs(CsRemainder(i + numVertices + 1, numVertices));
    var fromPrev := Sub(vs[i], vs[prevIdx]);
    var fromPrevOrthogonal := WithY(Cross(Up, fromPrev), 0.0);
    fromPrevOrthogonal := m.normalize(fromPrevOrthogonal);
    var toNext := Sub(vs[nextIdx], vs[i]);
    var toNextOrthogonal := WithY(Cross(Up, toNext), 0.0);
    toNextOrthogonal := m.normalize(toNextOrthogonal);
    var angleFrom := m.acos(fromPrevOrthogonal.x) * Sign(fromPrevOrthogonal.z);
    var angleTo := m.acos(toNextOrthogonal.x) * Sign(toNextOrthogonal.z);
    arc := GetArcPolylinePoints(m, vs[i], radius, n, angleFrom, angleTo);
    assert arc == CornerArc(m, vs, radius, n, i);
    if AnglesInRange(m) {
      LemmaCornerArcWithinBudget(m, vs, radius, n, i);
    }
  }

  /** The source's loop: empty for a null or empty array, the full circle
      about a lone vertex, and otherwise each vertex's arc appended in
      vertex order. */
  method GetRoundedPolygonPolylinePoints(m: MathLib, vertices: Option<seq<Point3>>, radius: real, n: int)
    returns (points: seq<Point3>)
    ensures vertices.None? || vertices.value == [] ==> points == []
    ensures vertices.Some? && |vertices.value| == 1 ==>
              points == ArcPoints(m, vertices.value[0], radius, n, 0.0, m.TwoPi())
    ensures vertices.Some? && |vertices.value| > 1 ==>
              points == Flatten(CornerArcsUpTo(m, vertices.value, radius, n, |vertices.value|))
    ensures points == RoundedPolygonPoints(m, vertices, radius, n)
  {
    points := [];
    if vertices.Some? {
      var vs := vertices.value;
      if |vs| == 1 {
        points := GetArcPolylinePoints(m, vs[0], radius, n, 0.0, 2.0 * m.pi);
      } else if |vs| > 1 {
        var numVertices := |vs|;
        var i := 0;
        while i < numVertices
          invariant 0 <= i <= numVertices
          invariant points == Flatten(CornerArcsUpTo(m, vs, radius, n, i))
        {
          var arc := GetCornerArc(m, vs, radius, n, i);
          assert arc == CornerArc(m, vs, radius, n, i);
          LemmaFlattenSnoc(CornerArcsUpTo(m, vs, radius, n, i), arc);
          points := points + arc;
          i := i + 1;
        }
      }
    }
  }

  /** A single vertex gives the full circle about it; with a budget of
      `n >= 1` and a non-degenerate radius that is exactly `n` points. */
  lemma LemmaSingleVertexIsFullCircle(m: MathLib, v: Point3, radius: real, n: int)
    ensures RoundedPolygonPoints(m, Some([v]), radius, n) == ArcPoints(m, v, radius, n, 0.0, m.TwoPi())
    ensures n >= 1 && !m.approximately(m.TwoPi(), 0.0) && !m.approximately(radius, 0.0) ==>
              |RoundedPolygonPoints(m, Some([v]), radius, n)| == n
  {
    if n >= 1 && !m.approximately(m.TwoPi(), 0.0) && !m.approximately(radius, 0.0) {
      LemmaFullCircleHasBudgetPoints(m, v, radius, n, 0.0);
      assert 0.0 + m.TwoPi() == m.TwoPi();
    }
  }

  /** With two or more vertices the outline is the vertex-order
      concatenation of the corner arcs, so its length is the sum of theirs. */
  lemma LemmaOutlineLength(m: MathLib, vs: seq<Point3>, radius: real, n: int)
    requires |vs| >= 2
    ensures |RoundedPolygonPoints(m, Some(vs), radius, n)| == SumLengths(CornerArcsUpTo(m, vs, radius, n, |vs|))
  {
  }

  /** The arc of vertex `i` sits in the outline right after the arcs of the
      vertices before it, with nothing in between. */
  lemma LemmaOutlinePlacesCorner(m: MathLib, vs: seq<Point3>, radius: real, n: int, i: int)
    requires |vs| >= 2 && 0 <= i < |vs|
    ensures var start := OffsetOf(CornerArcsUpTo(m, vs, radius, n, |vs|), i);
            var arc := CornerArc(m, vs, radius, n, i);
            var r := RoundedPolygonPoints(m, Some(vs), radius, n);
            start + |arc| <= |r| && r[start .. start + |arc|] == arc
  {
    var arcs := CornerArcsUpTo(m, vs, radius, n, |vs|);
    LemmaCornerArcsUpToIndex(m, vs, radius, n, |vs|, i);
    LemmaFlattenPlacesPart(arcs, i);
  }

  /** Under the usual ranges of `acos` and of normalised directions, each
      corner angle lies in [-pi, pi], so each corner sweeps at most one turn. */
  lemma LemmaCornerSweepWithinTurn(m: MathLib, vs: seq<Point3>, i: int)
    requires AnglesInRange(m)
    requires 0 <= i < |vs|
    ensures var count := |vs|;
            var from := EdgeAngle(m, Sub(vs[i], vs[PrevIndex(i, count)]));
            var to := EdgeAngle(m, Sub(vs[NextIndex(i, count)], vs[i]));
            0.0 <= Sweep(m, from, to) <= m.TwoPi()
  {
  }

  /** Under the same ranges a corner's arc has at most `max(n, 1)` points. */
  lemma LemmaCornerArcWithinBudget(m: MathLib, vs: seq<Point3>, radius: real, n: int, i: int)
    requires AnglesInRange(m)
    requires 0 <= i < |vs|
    ensures |CornerArc(m, vs, radius, n, i)| <= Max(n, 1)
  {
    var count := |vs|;
    var from := EdgeAngle(m, Sub(vs[i], vs[PrevIndex(i, count)]));
    var to := EdgeAngle(m, Sub(vs[NextIndex(i, count)], vs[i]));
    LemmaCornerSweepWithinTurn(m, vs, i);
    LemmaArcWithinBudget(m, vs[i], radius, n, from, to);
  }

  /** Under the same ranges the outline of `N >= 2` vertices has at most
      `N * max(n, 1)` points. */
  lemma LemmaOutlineWithinBudget(m: MathLib, vs: seq<Point3>, radius: real, n: int)
    requires AnglesInRange(m)
    requires |vs| >= 2
    ensures |RoundedPolygonPoints(m, Some(vs), radius, n)| <= |vs| * Max(n, 1)
  {
    var arcs := CornerArcsUpTo(m, vs, radius, n, |vs|);
    forall i | 0 <= i < |arcs|
      ensures |arcs[i]| <= Max(n, 1)
    {
      LemmaCornerArcsUpToIndex(m, vs, radius, n, |vs|, i);
      LemmaCornerArcWithinBudget(m, vs, radius, n, i);
    }
    LemmaSumLengthsBound(arcs, Max(n, 1));
  }
}
