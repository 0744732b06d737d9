/** Vectors and colours as triples of reals, and the numeric primitives the renderer
    takes from its maths library, kept abstract as an oracle. */
module Vectors {

  /** The three coordinate axes, in the order the renderer tries them. */
  datatype Axis = X | Y | Z
  {
    /** The coordinate index 0, 1 or 2 of the axis. */
    function Dim(): int
    {
      match this
      case X => 0
      case Y => 1
      case Z => 2
    }
  }

  /** A point, a direction or an RGB colour (`Vec3d`). */
  datatype Vec3 = Vec3(x: real, y: real, z: real) {

    function At(a: Axis): real
    {
      match a
      case X => x
      case Y => y
      case Z => z
    }

    function Add(o: Vec3): Vec3 { Vec3(x + o.x, y + o.y, z + o.z) }

    function Sub(o: Vec3): Vec3 { Vec3(x - o.x, y - o.y, z - o.z) }

    function Neg(): Vec3 { Vec3(-x, -y, -z) }

    function Scale(k: real): Vec3 { Vec3(k * x, k * y, k * z) }

    /** Component-wise product, the `%` operator of `Vec3d`. */
    function Mul(o: Vec3): Vec3 { Vec3(x * o.x, y * o.y, z * o.z) }

    function Dot(o: Vec3): real { x * o.x + y * o.y + z * o.z }

    function Cross(o: Vec3): Vec3
    {
      Vec3(y * o.z - z * o.y, z * o.x - x * o.z, x * o.y - y * o.x)
    }

    /** Divides every component by a scalar in floating point (`Vec3d / double`). */
    function Over(m: Math, k: real): Vec3
    {
      Vec3(m.div(x, k), m.div(y, k), m.div(z, k))
    }

    /** Subtracts a scalar from every component (`Vec3d - double`). */
    function SubScalar(k: real): Vec3 { Vec3(x - k, y - k, z - k) }

    /** Each channel clamped to [0, 1] (`Vec3d::clamp`). */
    function Clamp(): (r: Vec3)
      ensures r.InUnit()
      ensures InUnit() ==> r == this
    {
      Vec3(Unit(x), Unit(y), Unit(z))
    }

    predicate InUnit()
    {
      0.0 <= x <= 1.0 && 0.0 <= y <= 1.0 && 0.0 <= z <= 1.0
    }

    /** True when some channel is strictly positive. */
    predicate AnyPositive()
    {
      x > 0.0 || y > 0.0 || z > 0.0
    }

    predicate NonNegative()
    {
      x >= 0.0 && y >= 0.0 && z >= 0.0
    }
  }

  function Unit(v: real): real
  {
    if v < 0.0 then 0.0 else if v > 1.0 then 1.0 else v
  }

  const Zero := Vec3(0.0, 0.0, 0.0)
  const White := Vec3(1.0, 1.0, 1.0)

  lemma AddZero(x: Vec3)
    ensures x.Add(Zero) == x
  {
  }

  lemma AddAssociates(x: Vec3, y: Vec3, z: Vec3)
    ensures x.Add(y).Add(z) == x.Add(y.Add(z))
  {
  }

  /** The unit normal of the plane perpendicular to an axis. */
  function AxisNormal(a: Axis): (n: Vec3)
    ensures n.At(a) == 1.0
    ensures forall b :: b != a ==> n.At(b) == 0.0
  {
    match a
    case X => Vec3(1.0, 0.0, 0.0)
    case Y => Vec3(0.0, 1.0, 0.0)
    case Z => Vec3(0.0, 0.0, 1.0)
  }

  /** A 3x3 matrix given by its rows (`Mat3d`). */
  datatype Mat3 = Mat3(r0: Vec3, r1: Vec3, r2: Vec3)

  /** The floating-point primitives of the maths library, whose values the model leaves
      open: square root, power, normalisation, arc tangent and sine, the solve
      `M.inverse() * v`, the dropped-coordinate choice of a triangle, and IEEE division
      (which also answers for a zero divisor). */
  datatype Math = Math(
    sqrt: real -> real,
    pow: (real, real) -> real,
    normalize: Vec3 -> Vec3,
    atan2: (real, real) -> real,
    asin: real -> real,
    solve: (Mat3, Vec3) -> Vec3,
    dropAxis: Vec3 -> int,
    div: (real, real) -> real)

  /** The only facts about the primitives the proofs rely on: a square root of a
      non-negative value is non-negative and that of 0 is 0, and division by a non-zero value
      is exact. */
  ghost predicate Lawful(m: Math)
  {
    (forall v :: v >= 0.0 ==> m.sqrt(v) >= 0.0) && m.sqrt(0.0) == 0.0 &&
    (forall a, b :: b != 0.0 ==> m.div(a, b) == a / b)
  }

  /** `Vec3d::length`. */
  function Length(m: Math, v: Vec3): real
  {
    m.sqrt(v.Dot(v))
  }

  lemma LengthNonNegative(m: Math, v: Vec3)
    requires Lawful(m)
    ensures Length(m, v) >= 0.0
  {
    assert v.Dot(v) == v.x * v.x + v.y * v.y + v.z * v.z;
    assert v.x * v.x >= 0.0 && v.y * v.y >= 0.0 && v.z * v.z >= 0.0;
  }
}
