# Polyline generation of `MM.MathsUtils`, modelled in Dafny

This project models the polyline generator of `MM.MathsUtils` in
`Runtime/MMUtils/MathsUtils.cs`. The generator has two parts:

- **`GetArcPolylinePoints`** tessellates a counter-clockwise circular arc.
  The arc lies on the horizontal plane through a centre. Its density is a
  budget of segments per full circle.
- **`GetRoundedPolygonPolylinePoints`** builds a rounded outline from an
  ordered loop of vertices. It places one such arc about every vertex and
  joins the arcs in vertex order.

The model works over exact `real` numbers. Unity's `Vector3` becomes the
immutable `Point3` datatype, and `List<Vector3>` becomes `seq<Point3>`.

The primitives with transcendental or tolerance-based values are left
abstract: `Mathf.PI`, `Mathf.Cos`, `Mathf.Sin`, `Mathf.Acos`,
`Vector3.Normalize` and `Mathf.Approximately`. They are fields of a
`MathLib` value that every model function takes as a parameter, so every
property holds for every interpretation of them. The only thing assumed
about π is that it is positive. A few members add a hypothesis of their own,
and each one states it in its contract, as a `requires` or as the premise
of an `ensures`. For example, the corner-angle
bounds assume that normalised x components lie in [-1, 1] and that `acos`
maps that range into [0, π].

The primitives with an exact meaning are defined, following Unity's
documented behaviour:

- vector sum, difference and cross product, and `Vector3.up`;
- `Mathf.Sign`: 1 for zero and positive arguments, −1 otherwise;
- `Mathf.CeilToInt`, through `real.Floor`;
- `Mathf.Max` and `Mathf.Abs` on integers;
- C#'s truncating `%`.

Modules:

- `Vectors` (`vectors.dfy`): `Point3` and the vector operations.
- `Primitives` (`primitives.dfy`): `MathLib`, `Sign`, `CeilToInt`, `Max`,
  `Abs`, `CsRemainder`, and `Option` (a null array is `None`).
- `Arc` (`arc.dfy`): the arc tessellator.
- `Sequences` (`sequences.dfy`): concatenation of a sequence of sequences.
- `RoundedPolygon` (`rounded_polygon.dfy`): the rounded-polygon outliner.

Each operation appears twice: once as a pure function (`ArcPoints`,
`RoundedPolygonPoints`), and once as a method whose loop follows the
source statement by statement (`GetArcPolylinePoints`,
`GetRoundedPolygonPolylinePoints`). Each method is proved equal to its
function.

Two behaviours of the code are worth stating plainly:

- The sweep is not normalised into [0, 2π). The code adds one full turn
  only when the raw difference is negative, and only once. So a difference
  below −2π stays negative, and a difference of 2π or more is kept as it
  is. `LemmaSweepRange` states exactly when the sweep lands in [0, 2π).
- A budget `n <= 0` is not rejected. With a non-negative sweep it gives
  one segment, because of `Max(..., 1)` (`LemmaNonPositiveBudgetOneSegment`).
  A negative budget times a sweep left negative by the single wrap has a
  positive share, so it can ask for several segments: a budget of −4
  over a sweep of −6π gives 12 (`LemmaNegativeBudgetNegativeSweep`).

## Model

| member | source | states |
|---|---|---|
| Arc.Sweep | Runtime/MMUtils/MathsUtils.cs:100-104 | The effective sweep is either the raw difference `max - min` or that plus 2π, and it is the raw difference exactly when the difference is non-negative; no other adjustment is made. |
| Arc.LemmaSweepRange | Runtime/MMUtils/MathsUtils.cs:100-104 | The sweep lies in [0, 2π) if and only if the raw difference lies in [-2π, 2π); a difference below -2π stays negative; one of 2π or more is kept unchanged. |
| Arc.LemmaNegativeSweepIsCounterClockwise | Runtime/MMUtils/MathsUtils.cs:100-104 | A clockwise request (difference in [-2π, 0)) yields exactly the counter-clockwise arc ending one turn later. |
| Arc.SegmentCount | Runtime/MMUtils/MathsUtils.cs:121-122 | The segment count is the least integer that is at least 1 and not below `n * sweep / 2π`. |
| Arc.SamplePoint | Runtime/MMUtils/MathsUtils.cs:131-135 | A sample point always has the centre's height; its x and z offsets are left to the abstract cos and sin. |
| Arc.ArcPoints | Runtime/MMUtils/MathsUtils.cs:93-140 | Every emitted point shares the centre's height, and the result is empty exactly when the sweep is approximately zero. |
| Arc.GetArcPolylinePoints | Runtime/MMUtils/MathsUtils.cs:93-140 | The result is empty for an approximately zero sweep. Otherwise it is `[centre]` for an approximately zero radius. Otherwise it has `SegmentCount` points, point `i` at angle `min + i * sweep / count`. It equals `ArcPoints`. |
| Arc.LemmaEqualAnglesGiveNoPoints | Runtime/MMUtils/MathsUtils.cs:100-111 | Explicitly equal start and end angles give an empty polyline, whatever the centre and radius, if zero is approximately zero. |
| Arc.LemmaZeroRadiusGivesCentre | Runtime/MMUtils/MathsUtils.cs:112-118 | A sweep that is not approximately zero with an approximately zero radius gives exactly `[centre]`. |
| Arc.LemmaFullCircleHasBudgetPoints | Runtime/MMUtils/MathsUtils.cs:97-129 | A full turn (the default angles 0 to 2π, or any start and one turn later) with budget `n >= 1` and a non-degenerate radius gives exactly `n` points. |
| Arc.LemmaSampledPoints | Runtime/MMUtils/MathsUtils.cs:123-136 | In the general case there are `SegmentCount` points, the first at `minAngle` and point `i` at `i` segment angles further on. |
| Arc.LemmaSampleAnglesWithinSweep | Runtime/MMUtils/MathsUtils.cs:129-136 | The end of a non-zero sweep is never sampled. A positive sweep's samples lie in [min, min + sweep). Consecutive samples differ by one segment angle. |
| Arc.LemmaArcWithinBudget | Runtime/MMUtils/MathsUtils.cs:121-122 | A sweep in [0, 2π] never yields more than `max(n, 1)` points. |
| Arc.LemmaNonPositiveBudgetOneSegment | Runtime/MMUtils/MathsUtils.cs:121-122 | A budget `n <= 0` with a non-negative sweep gives exactly one segment. |
| Arc.LemmaNegativeBudgetNegativeSweep | Runtime/MMUtils/MathsUtils.cs:100-122 | A budget of −4 over a sweep of −6π (what the single wrap leaves of a raw difference of −8π) gives 12 segments, whatever the value of π. |
| Primitives.CeilToInt | Runtime/MMUtils/MathsUtils.cs:122 | The result is the least integer not below its argument. |
| Primitives.Sign | Runtime/MMUtils/MathsUtils.cs:178-179 | The result is ±1, and it is 1 exactly for non-negative arguments. |
| Primitives.Max | Runtime/MMUtils/MathsUtils.cs:122 | The result is one of the two arguments and is at least both, so it is their maximum. |
| Primitives.Abs | Runtime/MMUtils/MathsUtils.cs:167-168 | The result is the argument or its negation and is never negative, so it is the magnitude. |
| Primitives.CsRemainder | Runtime/MMUtils/MathsUtils.cs:167-168 | C#'s truncating remainder takes the dividend's sign, is smaller in size than the divisor, and agrees with Euclidean `%` on non-negative dividends. |
| Vectors.LemmaCrossUpIsHorizontal | Runtime/MMUtils/MathsUtils.cs:170-176 | `up x v` is `(v.z, 0, -v.x)`, so zeroing its `y` changes nothing in exact arithmetic; `EdgeAngle`'s contract rests on it. |
| RoundedPolygon.PrevIndex | Runtime/MMUtils/MathsUtils.cs:167 | The previous index lies in [0, N) and is the cyclic predecessor: `N - 1` for vertex 0, else `i - 1`. |
| RoundedPolygon.NextIndex | Runtime/MMUtils/MathsUtils.cs:168 | The next index lies in [0, N) and is the cyclic successor: 0 for the last vertex, else `i + 1`. |
| RoundedPolygon.EdgeAngle | Runtime/MMUtils/MathsUtils.cs:170-179 | The edge angle is `±acos` of the x component of the normalised quarter-turn `(edge.z, 0, -edge.x)`. If `acos` maps into [0, π] and normalised x components lie in [-1, 1], it lies in [-π, π]. |
| RoundedPolygon.CornerArc | Runtime/MMUtils/MathsUtils.cs:169-187 | Every point of a vertex's arc lies on that vertex's horizontal plane. |
| RoundedPolygon.GetCornerArc | Runtime/MMUtils/MathsUtils.cs:167-187 | One loop iteration gives the arc about `vs[i]` from the angle of the edge from the cyclic predecessor (`N - 1` for vertex 0) to the angle of the edge to the cyclic successor (0 after the last). Every point has the vertex's height, and under the angle ranges there are at most `max(n, 1)` points. |
| RoundedPolygon.CornerArcsUpTo | Runtime/MMUtils/MathsUtils.cs:165-188 | The arcs appended after the first `k` iterations number exactly `k`; which arc each entry is, `LemmaCornerArcsUpToIndex` states. |
| RoundedPolygon.RoundedPolygonPoints | Runtime/MMUtils/MathsUtils.cs:142-193 | A null or empty vertex array gives an empty outline. |
| RoundedPolygon.GetRoundedPolygonPolylinePoints | Runtime/MMUtils/MathsUtils.cs:142-193 | Null or empty gives an empty outline. One vertex gives the full 0 to 2π arc about it. Two or more give the vertex-order concatenation of the corner arcs. It equals `RoundedPolygonPoints`. |
| RoundedPolygon.LemmaSingleVertexIsFullCircle | Runtime/MMUtils/MathsUtils.cs:152-158 | A single vertex gives exactly the default full-circle arc about it, so `n` points for a budget `n >= 1` and a non-degenerate radius. |
| RoundedPolygon.LemmaCornerArcsUpToIndex | Runtime/MMUtils/MathsUtils.cs:165-188 | Entry `i` of the arcs built for the first `k` vertices is vertex `i`'s arc. |
| RoundedPolygon.LemmaOutlineLength | Runtime/MMUtils/MathsUtils.cs:160-188 | With two or more vertices the outline's length is the sum of the corner arcs' lengths. |
| RoundedPolygon.LemmaOutlinePlacesCorner | Runtime/MMUtils/MathsUtils.cs:160-188 | Vertex `i`'s arc occupies the slice of the outline that starts right after the arcs of vertices `0 .. i-1`, so nothing is inserted between arcs. |
| RoundedPolygon.LemmaOutlineOnVertexPlanes | Runtime/MMUtils/MathsUtils.cs:142-193 | Every outline point lies on the horizontal plane through some vertex. |
| RoundedPolygon.LemmaCornerSweepWithinTurn | Runtime/MMUtils/MathsUtils.cs:169-187 | Under the same ranges every corner's sweep lies in [0, 2π]. |
| RoundedPolygon.LemmaCornerArcWithinBudget | Runtime/MMUtils/MathsUtils.cs:169-187 | Under the same ranges a corner's arc has at most `max(n, 1)` points. |
| RoundedPolygon.LemmaOutlineWithinBudget | Runtime/MMUtils/MathsUtils.cs:160-188 | Under the same ranges an outline of `N >= 2` vertices has at most `N * max(n, 1)` points. |
| Sequences.Flatten | Runtime/MMUtils/MathsUtils.cs:181-187 | Joining the parts gives a sequence whose length is the sum of the parts' lengths. |
| Sequences.LemmaFlattenSnoc | Runtime/MMUtils/MathsUtils.cs:181-187 | Appending one more arc (`AddRange`) appends its points to the concatenation. |
| Sequences.LemmaFlattenPlacesPart | Runtime/MMUtils/MathsUtils.cs:181-187 | Part `i` sits in the concatenation at the offset given by the total length of the parts before it. |
| Sequences.LemmaSumLengthsBound | Runtime/MMUtils/MathsUtils.cs:181-187 | If every part has at most `b` points, the concatenation has at most `count * b` points. |

## Left out

- IEEE-754 single-precision rounding, NaN and infinities: the model computes over exact reals. For example, the sum `minAngle + segmentAngle * i` is exact here.
- Integer overflow in `Mathf.CeilToInt` for huge budgets or sweeps: the model uses unbounded `int`.
- The values of `cos`, `sin`, `acos`, `Normalize` and π, and the tolerance inside Unity's `Mathf.Approximately`: these are abstract `MathLib` fields. So no property says that points lie at distance `radius` from the centre; that would need `sin² + cos² = 1`.
- The geometric meaning of the corner angles (fillet correctness, convexity, vertex ordering): the source does not validate these, and they depend on the abstract trigonometry.
- The comparison helpers `Difference`, `Approximately`/`ApproximatelyAll` for scalars, vectors, quaternions and matrices, `Max(Vector3)`, and the constants `kOneOverRootTwo` and `kFloatEpsilon` (lines 8-90): the polyline generator does not use them.
- The `List` capacity preallocation at line 127, and the Unity types themselves: replaced by `seq` and `Point3`.
- RoundedPolygon.RoundedPolygonPoints: its own contract states only the null-or-empty case. The single-vertex and concatenation results are stated by `LemmaSingleVertexIsFullCircle`, `LemmaOutlineLength`, `LemmaOutlinePlacesCorner` and the method `GetRoundedPolygonPolylinePoints`.
- RoundedPolygon.PrevIndex: the sum `i + N - 1` is unbounded here. In C# it is an unchecked 32-bit `int` and wraps for the highest indices of an array of more than 2^30 vertices. From N = 2^30 + 2 on, the remainder and `Mathf.Abs` can then give an index that is not the cyclic predecessor. At N = 2^30 + 1 the one wrapped sum still gives the right index. For example, N = 2^30 + 3 and i = N - 1 give 1073741817 instead of 1073741825.
- RoundedPolygon.NextIndex: the sum `i + N + 1` is unbounded here. In C# it is an unchecked 32-bit `int` and wraps for the highest indices of an array of 2^30 or more vertices. From N = 2^30 + 1 on, the result can then be an index that is not the cyclic successor. At N = 2^30 the one wrapped sum still gives 0. For example, N = 2^30 + 1 and i = N - 1 give 1073741821 instead of 0.
- Primitives.CsRemainder: for negative dividends it states sign and magnitude, not the divisibility of `a - r` by `b`. The source only divides non-negative values here.
