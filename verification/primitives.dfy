/** The numeric primitives the polyline generator borrows from Unity's
    `Mathf`. Those whose values are transcendental or tolerance-based are
    left abstract: they are fields of a `MathLib` value that every model
    function takes as a parameter, so each property proved here holds for
    every interpretation of them. Those with a simple exact definition are
    defined. */
module Primitives {
  import opened Vectors

  type Positive = x: real | x > 0.0 witness 1.0

  /** An interpretation of the abstract primitives: `Mathf.PI`,
      `Mathf.Cos`, `Mathf.Sin`, `Mathf.Acos`, `Vector3.Normalize` and
      `Mathf.Approximately`. */
  datatype MathLib = MathLib(
    pi: Positive,
    cos: real -> real,
    sin: real -> real,
    acos: real -> real,
    normalize: Point3 -> Point3,
    approximately: (real, real) -> bool)
  {
    /** A full turn, written `2 * Mathf.PI` in the source. */
    function TwoPi(): (t: real)
      ensures t > 0.0
    {
      2.0 * pi
    }
  }

  /** What the corner-angle computation relies on from the library:
      normalised directions have an x component in [-1, 1], and `acos`
      maps [-1, 1] into [0, pi]. */
  ghost predicate AnglesInRange(m: MathLib) {
    && (forall v :: -1.0 <= m.normalize(v).x <= 1.0)
    && (forall c :: -1.0 <= c <= 1.0 ==> 0.0 <= m.acos(c) <= m.pi)
  }

  /** `Mathf.Sign`: 1 for zero and positive arguments, -1 otherwise. */
  function Sign(f: real): (s: real)
    ensures s == 1.0 || s == -1.0
    ensures s == 1.0 <==> f >= 0.0
  {
    if f >= 0.0 then 1.0 else -1.0
  }

  /** `Mathf.CeilToInt`: the least integer not below `f`. */
  function CeilToInt(f: real): (c: int)
    ensures c as real - 1.0 < f <= c as real
  {
    -((-f).Floor)
  }

  /** `Mathf.Max` on two integers. */
  function Max(a: int, b: int): (r: int)
    ensures r >= a && r >= b
    ensures r == a || r == b
  {
    if a >= b then a else b
  }

  /** `Mathf.Abs` on an integer. */
  function Abs(a: int): (r: nat)
    ensures r == a || r == -a
  {
    if a < 0 then -a else a
  }

  /** C#'s `%` on `int` for a positive divisor, which truncates toward
      zero: the remainder takes the sign of the dividend. (Dafny's own `%`
      is Euclidean, so the two differ on negative dividends.) */
  function CsRemainder(a: int, b: int): (r: int)
    requires b > 0
    ensures a >= 0 ==> 0 <= r < b && r == a % b
    ensures a < 0 ==> -b < r <= 0
  {
    if a >= 0 then a % b else -((-a) % b)
  }

  /** A reference that may be null. */
  datatype Option<T> = None | Some(value: T)
}
