/** The arc tessellator (`MathsUtils.GetArcPolylinePoints`): the points of
    a polyline approximating a counter-clockwise circular arc on the
    horizontal plane through a centre. */
module Arc {
  import opened Vectors
  import opened Primitives

  /** The swept angle from `minAngle` to `maxAngle`: the raw difference,
      with one full turn added when that difference is negative. */
  function Sweep(m: MathLib, minAngle: real, maxAngle: real): (s: real)
    ensures s == maxAngle - minAngle || s == maxAngle - minAngle + m.TwoPi()
    ensures s == maxAngle - minAngle <==> maxAngle - minAngle >= 0.0
  {
    var arcAngle := maxAngle - minAngle;
    if arcAngle < 0.0 then arcAngle + m.TwoPi() else arcAngle
  }

  /** The sweep's share of a full turn, times the full-circle budget `n`. */
  function BudgetShare(m: MathLib, n: int, sweep: real): real {
    n as real * (sweep / m.TwoPi())
  }

  /** The number of segments for a sweep: its share of the budget rounded
      up, but never below one; that is, the least integer of at least one
      that is not below the share. */
  function SegmentCount(m: MathLib, n: int, sweep: real): (k: int)
    ensures k >= 1
    ensures k as real >= BudgetShare(m, n, sweep)
    ensures k == 1 || (k - 1) as real < BudgetShare(m, n, sweep)
  {
    Max(CeilToInt(BudgetShare(m, n, sweep)), 1)
  }

  /** The angle of sample `i` out of `k` equal steps over `sweep`. */
  function SampleAngle(minAngle: real, sweep: real, k: int, i: int): real
    requires k >= 1
  {
    minAngle + (sweep / k as real) * i as real
  }

  /** The point at `angle` on the circle of `radius` about `centre`, in the
      horizontal plane through the centre. */
  function SamplePoint(m: MathLib, centre: Point3, radius: real, angle: real): (p: Point3)
    ensures p.y == centre.y
  {
    Add(centre, Point3(m.cos(angle) * radius, 0.0, m.sin(angle) * radius))
  }

  /** Whether an arc falls in the general, sampled case: neither its sweep
      nor its radius is approximately zero. */
  predicate IsSampled(m: MathLib, radius: real, sweep: real) {
    !m.approximately(sweep, 0.0) && !m.approximately(radius, 0.0)
  }

  /** The polyline for an arc, as a pure function. */
  function ArcPoints(m: MathLib, centre: Point3, radius: real, n: int,
                     minAngle: real, maxAngle: real): (r: seq<Point3>)
    ensures forall p :: p in r ==> p.y == centre.y
    ensures |r| == 0 <==> m.approximately(Sweep(m, minAngle, maxAngle), 0.0)
    ensures |r| <= SegmentCount(m, n, Sweep(m, minAngle, maxAngle))
  {
    var sweep := Sweep(m, minAngle, maxAngle);
    if m.approximately(sweep, 0.0) then
      []
    else if m.approximately(radius, 0.0) then
      [centre]
    else
      var k := SegmentCount(m, n, sweep);
      seq(k, i requires 0 <= i < k => SamplePoint(m, centre, radius, SampleAngle(minAngle, sweep, k, i)))
  }

  /** The source's loop: the three outcomes, and in the sampled case one
      point per segment starting at `minAngle`. */
  method GetArcPolylinePoints(m: MathLib, centre: Point3, radius: real, n: int,
                              minAngle: real, maxAngle: real)
    returns (points: seq<Point3>)
    ensures m.approximately(Sweep(m, minAngle, maxAngle), 0.0) ==> points == []
    ensures !m.approximately(Sweep(m, minAngle, maxAngle), 0.0) && m.approximately(radius, 0.0)
            ==> points == [centre]
    ensures IsSampled(m, radius, Sweep(m, minAngle, maxAngle)) ==>
              && |points| == SegmentCount(m, n, Sweep(m, minAngle, maxAngle))
              && forall i :: 0 <= i < |points| ==>
                   points[i] == SamplePoint(m, centre, radius,
                                  SampleAngle(minAngle, Sweep(m, minAngle, maxAngle), |points|, i))
    ensures points == ArcPoints(m, centre, radius, n, minAngle, maxAngle)
  {
    var arcAngle := maxAngle - minAngle;
    if arcAngle < 0.0 {
      arcAngle := arcAngle + 2.0 * m.pi;
    }
    assert arcAngle == Sweep(m, minAngle, maxAngle);
    if m.approximately(arcAngle, 0.0) {
      points := [];
    } else if m.approximately(radius, 0.0) {
      points := [centre];
    } else {
      var rotationRatio := arcAngle / (2.0 * m.pi);
      var numSegments := Max(CeilToInt(n as real * rotationRatio), 1);
      assert numSegments == SegmentCount(m, n, arcAngle);
      var segmentAngle := arcAngle / numSegments as real;
      points := [];
      var i := 0;
      while i < numSegments
        invariant 0 <= i <= numSegments
        invariant |points| == i
        invariant forall j :: 0 <= j < i ==>
                    points[j] == SamplePoint(m, centre, radius, SampleAngle(minAngle, arcAngle, numSegments, j))
      {
        var pointAngle := minAngle + segmentAngle * i as real;
        assert pointAngle == SampleAngle(minAngle, arcAngle, numSegments, i);
        var point := Add(centre, Point3(m.cos(pointAngle) * radius, 0.0, m.sin(pointAngle) * radius));
        assert point == SamplePoint(m, centre, radius, pointAngle);
        points := points + [point];
        i := i + 1;
      }
      LemmaSampledPoints(m, centre, radius, n, minAngle, maxAngle);
      ghost var expected := ArcPoints(m, centre, radius, n, minAngle, maxAngle);
      assert |expected| == numSegments;
      assert forall j :: 0 <= j < numSegments ==> points[j] == expected[j];
    }
  }

  /** The effective sweep lies in [0, 2pi) exactly when the raw difference
      lies in [-2pi, 2pi); one turn is added at most once, so a difference
      below -2pi stays negative and one of 2pi or more is kept as is. */
  lemma LemmaSweepRange(m: MathLib, minAngle: real, maxAngle: real)
    ensures var raw := maxAngle - minAngle;
            var s := Sweep(m, minAngle, maxAngle);
            && (0.0 <= s < m.TwoPi() <==> -m.TwoPi() <= raw < m.TwoPi())
            && (raw < -m.TwoPi() ==> s < 0.0)
            && (raw >= m.TwoPi() ==> s == raw)
  {
  }

  /** Requesting a clockwise arc (a negative difference of at most a turn)
      yields the counter-clockwise arc that ends one turn later. */
  lemma LemmaNegativeSweepIsCounterClockwise(m: MathLib, centre: Point3, radius: real, n: int,
                                             minAngle: real, maxAngle: real)
    requires -m.TwoPi() <= maxAngle - minAngle < 0.0
    ensures Sweep(m, minAngle, maxAngle) == Sweep(m, minAngle, maxAngle + m.TwoPi())
    ensures ArcPoints(m, centre, radius, n, minAngle, maxAngle)
         == ArcPoints(m, centre, radius, n, minAngle, maxAngle + m.TwoPi())
  {
  }

  /** Explicitly equal angles give an empty polyline, assuming the
      tolerance predicate holds of zero against itself. */
  lemma LemmaEqualAnglesGiveNoPoints(m: MathLib, centre: Point3, radius: real, n: int, angle: real)
    requires m.approximately(0.0, 0.0)
    ensures ArcPoints(m, centre, radius, n, angle, angle) == []
  {
  }

  /** A zero radius collapses any non-degenerate sweep to the centre. */
  lemma LemmaZeroRadiusGivesCentre(m: MathLib, centre: Point3, radius: real, n: int,
                                   minAngle: real, maxAngle: real)
    requires !m.approximately(Sweep(m, minAngle, maxAngle), 0.0)
    requires m.approximately(radius, 0.0)
    ensures ArcPoints(m, centre, radius, n, minAngle, maxAngle) == [centre]
  {
  }

  /** A full turn (the default angles 0 and 2pi, or any start and one turn
      later) with a budget of `n >= 1` segments yields exactly `n` points. */
  lemma LemmaFullCircleHasBudgetPoints(m: MathLib, centre: Point3, radius: real, n: int, start: real)
    requires n >= 1
    requires !m.approximately(m.TwoPi(), 0.0)
    requires !m.approximately(radius, 0.0)
    ensures Sweep(m, start, start + m.TwoPi()) == m.TwoPi()
    ensures |ArcPoints(m, centre, radius, n, start, start + m.TwoPi())| == n
  {
    var t := m.TwoPi();
    assert Sweep(m, start, start + t) == t;
    LemmaFullTurnShare(m, n);
    assert CeilToInt(n as real) == n;
  }

  /** In the sampled case there is one point per segment, the first at
      `minAngle` and point `i` at `i` segment angles further on. */
  lemma LemmaSampledPoints(m: MathLib, centre: Point3, radius: real, n: int,
                           minAngle: real, maxAngle: real)
    requires IsSampled(m, radius, Sweep(m, minAngle, maxAngle))
    ensures var s := Sweep(m, minAngle, maxAngle);
            var r := ArcPoints(m, centre, radius, n, minAngle, maxAngle);
            && |r| == SegmentCount(m, n, s)
            && r[0] == SamplePoint(m, centre, radius, minAngle)
            && forall i :: 0 <= i < |r| ==> r[i] == SamplePoint(m, centre, radius, SampleAngle(minAngle, s, |r|, i))
  {
    var s := Sweep(m, minAngle, maxAngle);
    var k := SegmentCount(m, n, s);
    assert SampleAngle(minAngle, s, k, 0) == minAngle;
  }

  /** The end of a non-zero sweep is never sampled; for a positive sweep
      every sample angle lies in [minAngle, minAngle + sweep), and the
      angles increase by one segment angle at a time. */
  lemma LemmaSampleAnglesWithinSweep(minAngle: real, s: real, k: int)
    requires k >= 1
    ensures s != 0.0 ==> forall i :: 0 <= i < k ==> SampleAngle(minAngle, s, k, i) != minAngle + s
    ensures s > 0.0 ==> forall i :: 0 <= i < k ==> minAngle <= SampleAngle(minAngle, s, k, i) < minAngle + s
    ensures forall i :: 0 <= i < k - 1 ==>
              SampleAngle(minAngle, s, k, i + 1) == SampleAngle(minAngle, s, k, i) + s / k as real
  {
  }

  /** A sweep of at most one turn never uses more segments than the
      full-circle budget (or one, for a budget below one). */
  lemma LemmaArcWithinBudget(m: MathLib, centre: Point3, radius: real, n: int,
                             minAngle: real, maxAngle: real)
    requires 0.0 <= Sweep(m, minAngle, maxAngle) <= m.TwoPi()
    ensures |ArcPoints(m, centre, radius, n, minAngle, maxAngle)| <= Max(n, 1)
  {
    var s := Sweep(m, minAngle, maxAngle);
    LemmaShareAtMostBudget(m, n, s);
    LemmaCeilAtMost(BudgetShare(m, n, s), Max(n, 1));
  }

  /** A budget below one with a non-negative sweep gives a single segment.
      (A negative budget with a negative sweep, which a raw difference
      below -2pi leaves behind, has a positive share and may give more.) */
  lemma LemmaNonPositiveBudgetOneSegment(m: MathLib, n: int, sweep: real)
    requires n <= 0 && sweep >= 0.0
    ensures SegmentCount(m, n, sweep) == 1
  {
    assert sweep / m.TwoPi() >= 0.0;
    LemmaScaleNonPositive(n as real, sweep / m.TwoPi());
  }

  /** A negative budget times a sweep left negative by the single wrap can
      ask for several segments: a budget of -4 over three clockwise turns
      gives 12. */
  lemma LemmaNegativeBudgetNegativeSweep(m: MathLib)
    ensures SegmentCount(m, -4, -3.0 * m.TwoPi()) == 12
  {
    var t := m.TwoPi();
    assert (-3.0 * t) / t == -3.0;
    assert CeilToInt(12.0) == 12;
  }

  /** A full turn's share of the budget is the whole budget. */
  lemma LemmaFullTurnShare(m: MathLib, n: int)
    ensures BudgetShare(m, n, m.TwoPi()) == n as real
  {
    var t := m.TwoPi();
    assert t / t == 1.0;
  }

  /** The share of a sweep of at most one turn is at most the budget, and
      at most zero for a negative budget. */
  lemma LemmaShareAtMostBudget(m: MathLib, n: int, s: real)
    requires 0.0 <= s <= m.TwoPi()
    ensures BudgetShare(m, n, s) <= Max(n, 1) as real
  {
    var ratio := s / m.TwoPi();
    LemmaShareOfTurn(s, m.TwoPi());
    if n >= 0 {
      LemmaScaleAtMostOne(n as real, ratio);
    } else {
      LemmaScaleNonPositive(n as real, ratio);
    }
  }

  lemma LemmaScaleAtMostOne(c: real, a: real)
    requires c >= 0.0 && a <= 1.0
    ensures c * a <= c
  {
    assert c - c * a == c * (1.0 - a);
  }

  lemma LemmaScaleNonPositive(c: real, a: real)
    requires c <= 0.0 && a >= 0.0
    ensures c * a <= 0.0
  {
    assert -(c * a) == (-c) * a;
  }

  lemma LemmaCeilAtMost(x: real, b: int)
    requires x <= b as real
    ensures CeilToInt(x) <= b
  {
  }

  /** A share `s / t` of `0 <= s <= t` lies in [0, 1]. */
  lemma LemmaShareOfTurn(s: real, t: real)
    requires t > 0.0 && 0.0 <= s <= t
    ensures 0.0 <= s / t <= 1.0
  {
    assert (s / t) * t == s;
  }

}
