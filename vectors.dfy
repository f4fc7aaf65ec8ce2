/** The three-dimensional vector type the path is built from: component-wise
    addition, subtraction, scaling and division by a scalar. */
module Vectors {

  datatype Vec = Vec(x: real, y: real, z: real)

  const Zero: Vec := Vec(0.0, 0.0, 0.0)

  function Add(a: Vec, b: Vec): Vec
  {
    Vec(a.x + b.x, a.y + b.y, a.z + b.z)
  }

  function Sub(a: Vec, b: Vec): Vec
  {
    Vec(a.x - b.x, a.y - b.y, a.z - b.z)
  }

  function Scale(s: real, v: Vec): Vec
  {
    Vec(s * v.x, s * v.y, s * v.z)
  }

  function Div(v: Vec, s: real): Vec
    requires s != 0.0
  {
    Vec(v.x / s, v.y / s, v.z / s)
  }
}

/** Operations the core uses but cannot define exactly over the reals:
    `std::sqrt`, the Euclidean length (`std::hypot`) and the fixed 13-point
    Gauss-Legendre rule. They are supplied by the caller; `Sound` states the
    only facts the spline code relies on. */
module Numerics {
  import opened Vectors

  datatype Numerics = Numerics(
    sqrt: real -> real,
    length: Vec -> real,
    /** `integrate(f, a, b)`: the quadrature of `f` over `[a, b]` */
    integrate: (real -> real, real, real) -> real)

  /** Square roots and lengths are never negative, and both vanish at zero;
      the quadrature (positive weights) of a non-negative integrand over a
      forward interval is non-negative. */
  ghost predicate Sound(num: Numerics)
  {
    && (forall x :: 0.0 <= x ==> 0.0 <= num.sqrt(x))
    && num.sqrt(0.0) == 0.0
    && (forall v :: 0.0 <= num.length(v))
    && num.length(Zero) == 0.0
    && (forall f: real -> real, a, b ::
          a <= b && (forall x :: 0.0 <= f(x)) ==> 0.0 <= num.integrate(f, a, b))
  }
}
