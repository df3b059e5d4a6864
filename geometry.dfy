/**
 * Planar vector arithmetic over exact reals.
 *
 * The game works on 32-bit floats through glm; this model uses `real`.
 * A square root cannot be defined here, so every member that measures a
 * length takes a square-root oracle `sqrt` and requires `IsSqrt(sqrt)`:
 * for every non-negative x, sqrt(x) is non-negative and squares back to x.
 *
 * Products are written with `Mul` so that the facts about them used below
 * (signs, monotonicity) are stated once, as lemmas, and then reused.
 */
module Geometry {

  function Mul(a: real, b: real): real { a * b }

  function Sq(x: real): real { Mul(x, x) }

  datatype Vec2 = Vec2(x: real, y: real) {
    function Plus(o: Vec2): Vec2 { Vec2(x + o.x, y + o.y) }
    function Minus(o: Vec2): Vec2 { Vec2(x - o.x, y - o.y) }
    function Times(k: real): Vec2 { Vec2(Mul(k, x), Mul(k, y)) }
  }

  datatype Vec3 = Vec3(x: real, y: real, z: real) {
    function Minus(o: Vec3): Vec3 { Vec3(x - o.x, y - o.y, z - o.z) }
    function XY(): Vec2 { Vec2(x, y) }
  }

  const Zero2 := Vec2(0.0, 0.0)

  function Dot(a: Vec2, b: Vec2): real { Mul(a.x, b.x) + Mul(a.y, b.y) }

  function SqLength(a: Vec2): real { Dot(a, a) }

  function SqDistance(a: Vec2, b: Vec2): real { SqLength(a.Minus(b)) }

  function SqLength3(a: Vec3): real { Sq(a.x) + Sq(a.y) + Sq(a.z) }

  /** `sqrt` is a square root on the non-negative reals. */
  ghost predicate IsSqrt(sqrt: real -> real) {
    forall x :: 0.0 <= x ==> 0.0 <= sqrt(x) && Sq(sqrt(x)) == x
  }

  // ---- signs and monotonicity of products ----

  lemma MulPositive(a: real, b: real)
    requires 0.0 < a && 0.0 < b
    ensures Mul(a, b) > 0.0
  {
  }

  lemma MulNegatives(a: real, b: real)
    requires a < 0.0 && b < 0.0
    ensures Mul(a, b) > 0.0
  {
  }

  lemma MulAtMost(a: real, b: real, c: real)
    requires a <= b && 0.0 <= c
    ensures Mul(a, c) <= Mul(b, c) && Mul(c, a) <= Mul(c, b)
  {
  }

  lemma MulBelow(a: real, b: real, c: real)
    requires a < b && 0.0 < c
    ensures Mul(a, c) < Mul(b, c) && Mul(c, a) < Mul(c, b)
  {
  }

  lemma MulCommutes(a: real, b: real)
    ensures Mul(a, b) == Mul(b, a)
  {
  }

  /** Squares are non-negative, and positive away from zero. */
  lemma SquareSign(x: real)
    ensures Sq(x) >= 0.0
    ensures x != 0.0 ==> Sq(x) > 0.0
  {
    if x > 0.0 {
      MulPositive(x, x);
    } else if x < 0.0 {
      MulNegatives(x, x);
    }
  }

  lemma SqLengthSign(a: Vec2)
    ensures SqLength(a) >= 0.0
    ensures a != Zero2 ==> SqLength(a) > 0.0
  {
    SquareSign(a.x);
    SquareSign(a.y);
  }

  lemma SqLength3Sign(a: Vec3)
    ensures SqLength3(a) >= 0.0
  {
    SquareSign(a.x);
    SquareSign(a.y);
    SquareSign(a.z);
  }

  /** Squaring is strictly increasing on the non-negative reals. */
  lemma SquareBelow(a: real, b: real)
    requires 0.0 <= a && a < b
    ensures Sq(a) < Sq(b)
  {
    MulAtMost(a, b, a);
    MulBelow(a, b, b);
    MulCommutes(a, b);
  }

  /** Squaring is increasing on the non-negative reals. */
  lemma SquareAtMost(a: real, b: real)
    requires 0.0 <= a && a <= b
    ensures Sq(a) <= Sq(b)
  {
    MulAtMost(a, b, a);
    MulAtMost(a, b, b);
    MulCommutes(a, b);
  }

  /** Two non-negative square roots of the same number are equal. */
  lemma RootUnique(s: real, t: real)
    requires 0.0 <= s && 0.0 <= t && Sq(s) == Sq(t)
    ensures s == t
  {
    if s < t {
      SquareBelow(s, t);
    } else if t < s {
      SquareBelow(t, s);
    }
  }

  /** A non-negative root `s` of `q` is at most `r` exactly when `r` is non-negative and `q <= r*r`. */
  lemma RootAtMost(s: real, q: real, r: real)
    requires 0.0 <= s && Sq(s) == q
    ensures s <= r <==> 0.0 <= r && q <= Sq(r)
  {
    if s <= r {
      SquareAtMost(s, r);
    }
    if 0.0 <= r && r < s {
      SquareBelow(r, s);
    }
  }

  /** A non-negative root `s` of `q` is below `r` exactly when `r` is positive and `q < r*r`. */
  lemma RootBelow(s: real, q: real, r: real)
    requires 0.0 <= s && Sq(s) == q
    ensures s < r <==> 0.0 < r && q < Sq(r)
  {
    if s < r {
      SquareBelow(s, r);
    }
    if 0.0 < r && r <= s {
      SquareAtMost(r, s);
    }
  }

  /** A product is zero only when a factor is. */
  lemma MulZero(p: real, q: real)
    requires Mul(p, q) == 0.0
    ensures p == 0.0 || q == 0.0
  {
    if p > 0.0 && q > 0.0 {
      MulPositive(p, q);
    } else if p < 0.0 && q < 0.0 {
      MulNegatives(p, q);
    } else if p > 0.0 && q < 0.0 {
      MulPositive(p, -q);
    } else if p < 0.0 && q > 0.0 {
      MulPositive(-p, q);
    }
  }

  /** Two numbers with the same square are equal up to sign. */
  lemma SquaresEqual(x: real, y: real)
    requires Sq(x) == Sq(y)
    ensures x == y || x == -y
  {
    assert Mul(x - y, x + y) == Sq(x) - Sq(y);
    MulZero(x - y, x + y);
  }

  // ---- the quadratic a*u*u + b*u + c ----

  function Quadratic(a: real, b: real, c: real, u: real): real { Mul(a, Sq(u)) + Mul(b, u) + c }

  function Discriminant(a: real, b: real, c: real): real { Sq(b) - Mul(4.0 * a, c) }

  lemma CompletedSquare(a: real, b: real, c: real, u: real)
    ensures Mul(4.0 * a, Quadratic(a, b, c, u)) == Sq(Mul(2.0 * a, u) + b) - Discriminant(a, b, c)
  {
  }

  /**
   * When `s` is the non-negative root of the discriminant, the zeros of the
   * quadratic are exactly the two values of the textbook formula.
   */
  lemma QuadraticRoots(a: real, b: real, c: real, s: real, u: real)
    requires a != 0.0 && 0.0 <= s && Sq(s) == Discriminant(a, b, c)
    ensures Quadratic(a, b, c, u) == 0.0 <==> u == (-b - s) / (2.0 * a) || u == (-b + s) / (2.0 * a)
  {
    CompletedSquare(a, b, c, u);
    var w := Mul(2.0 * a, u) + b;
    if Quadratic(a, b, c, u) == 0.0 {
      SquaresEqual(w, s);
    } else if w == s || w == -s {
      MulZero(4.0 * a, Quadratic(a, b, c, u));
    }
  }

  /** With a positive leading coefficient and a negative discriminant the quadratic has no zero. */
  lemma QuadraticPositive(a: real, b: real, c: real, u: real)
    requires a > 0.0 && Discriminant(a, b, c) < 0.0
    ensures Quadratic(a, b, c, u) > 0.0
  {
    CompletedSquare(a, b, c, u);
    SquareSign(Mul(2.0 * a, u) + b);
    if Quadratic(a, b, c, u) <= 0.0 {
      MulAtMost(Quadratic(a, b, c, u), 0.0, 4.0 * a);
    }
  }

  /** Every quadratic with `a != 0` is its value at the vertex plus `a` times the squared offset from it. */
  lemma VertexForm(a: real, b: real, c: real, u: real)
    requires a != 0.0
    ensures Quadratic(a, b, c, u) == Mul(a, Sq(u - (-b / (2.0 * a)))) + Quadratic(a, b, c, -b / (2.0 * a))
  {
  }

  lemma SquareOfNegation(x: real)
    ensures Sq(-x) == Sq(x)
  {
  }

  /** glm::length */
  function Length(a: Vec2, sqrt: real -> real): (r: real)
    requires IsSqrt(sqrt)
    ensures 0.0 <= r && Sq(r) == SqLength(a)
    ensures a != Zero2 ==> r > 0.0
  {
    SqLengthSign(a);
    sqrt(SqLength(a))
  }

  /** glm::length on three components */
  function Length3(a: Vec3, sqrt: real -> real): (r: real)
    requires IsSqrt(sqrt)
    ensures 0.0 <= r && Sq(r) == SqLength3(a)
  {
    SqLength3Sign(a);
    sqrt(SqLength3(a))
  }

  /** glm::distance */
  function Distance(a: Vec2, b: Vec2, sqrt: real -> real): (r: real)
    requires IsSqrt(sqrt)
    ensures 0.0 <= r && Sq(r) == SqDistance(a, b)
    ensures a != b ==> r > 0.0
  {
    Length(a.Minus(b), sqrt)
  }

  /** Scaling a vector by `k` scales its squared length by `k*k`. */
  lemma SqLengthTimes(a: Vec2, k: real)
    ensures SqLength(a.Times(k)) == Mul(Sq(k), SqLength(a))
  {
  }

  lemma InverseSquare(l: real)
    requires l != 0.0
    ensures Mul(Sq(1.0 / l), Sq(l)) == 1.0
  {
  }

  /** glm::normalize: the unit vector pointing the way `a` points. */
  function Normalize(a: Vec2, sqrt: real -> real): (u: Vec2)
    requires IsSqrt(sqrt)
    requires a != Zero2
    ensures SqLength(u) == 1.0
    ensures u.Times(Length(a, sqrt)) == a
  {
    var len := Length(a, sqrt);
    var u := a.Times(1.0 / len);
    SqLengthTimes(a, 1.0 / len);
    InverseSquare(len);
    u
  }

  /** Normalizing a vector that already has unit length leaves it as it is. */
  lemma NormalizeUnit(a: Vec2, sqrt: real -> real)
    requires IsSqrt(sqrt)
    requires SqLength(a) == 1.0
    ensures a != Zero2 && Normalize(a, sqrt) == a
  {
    SquareSign(1.0);
    RootUnique(Length(a, sqrt), 1.0);
  }

  /** A planar rotation by the angle whose cosine is `c` and sine is `s`. */
  datatype Rotation = Rotation(c: real, s: real)

  predicate IsRotation(r: Rotation) { Sq(r.c) + Sq(r.s) == 1.0 }

  function Rotate(r: Rotation, v: Vec2): Vec2 {
    Vec2(Mul(r.c, v.x) - Mul(r.s, v.y), Mul(r.s, v.x) + Mul(r.c, v.y))
  }

  /** A rotation preserves dot products, hence lengths and angles. */
  lemma RotateDot(r: Rotation, a: Vec2, b: Vec2)
    requires IsRotation(r)
    ensures Dot(Rotate(r, a), Rotate(r, b)) == Dot(a, b)
  {
    calc {
      Dot(Rotate(r, a), Rotate(r, b));
      (r.c * a.x - r.s * a.y) * (r.c * b.x - r.s * b.y) + (r.s * a.x + r.c * a.y) * (r.s * b.x + r.c * b.y);
      (r.c * r.c + r.s * r.s) * (a.x * b.x) + (r.c * r.c + r.s * r.s) * (a.y * b.y);
      Dot(a, b);
    }
  }

  lemma RotateMinus(r: Rotation, a: Vec2, b: Vec2)
    ensures Rotate(r, a.Minus(b)) == Rotate(r, a).Minus(Rotate(r, b))
  {
  }

  /** A rotation maps distinct points to distinct points. */
  lemma RotateInjective(r: Rotation, a: Vec2, b: Vec2)
    requires IsRotation(r)
    requires a != b
    ensures Rotate(r, a) != Rotate(r, b)
  {
    var d := a.Minus(b);
    RotateMinus(r, a, b);
    RotateDot(r, d, d);
    SqLengthSign(d);
    assert SqLength(Rotate(r, d)) > 0.0;
  }
}
