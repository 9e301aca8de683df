/** Homogeneous 4-tuples (src/maths/tuple.rs). A tuple whose `w` is 1 is a
    position, one whose `w` is 0 is a free vector; every operation is
    componentwise over all four components, `w` included. */
module Tuples {
  import opened FloatCompare

  datatype Tuple = Tuple(x: real, y: real, z: real, w: real)

  /** `Tuple::is_vector`: `w` is (approximately) 0. */
  predicate IsVector(t: Tuple)
  {
    IsSame(t.w, 0.0)
  }

  /** `Tuple::is_point`: `w` is (approximately) 1. */
  predicate IsPoint(t: Tuple)
  {
    IsSame(t.w, 1.0)
  }

  /** `Tuple::point`: the coordinates are kept and the tuple is a point. */
  function NewPoint(x: real, y: real, z: real): (t: Tuple)
    ensures t.x == x && t.y == y && t.z == z
    ensures IsPoint(t) && !IsVector(t)
  {
    Tuple(x, y, z, 1.0)
  }

  /** `Tuple::vector`: the coordinates are kept and the tuple is a vector. */
  function NewVector(x: real, y: real, z: real): (t: Tuple)
    ensures t.x == x && t.y == y && t.z == z
    ensures IsVector(t) && !IsPoint(t)
  {
    Tuple(x, y, z, 0.0)
  }

  /** No tuple is both a point and a vector: the tolerance is far below 1/2. */
  lemma PointOrVector(t: Tuple)
    ensures !(IsPoint(t) && IsVector(t))
  {
  }

  const Zero: Tuple := Tuple(0.0, 0.0, 0.0, 0.0)

  /** `Tuple::dot`: the sum of the products of all four components. */
  function Dot(a: Tuple, b: Tuple): real
  {
    a.x * b.x + a.y * b.y + a.z * b.z + a.w * b.w
  }

  /** `Sub for Tuple`: componentwise difference. Adding `b` back undoes it. */
  function Sub(a: Tuple, b: Tuple): (r: Tuple)
    ensures Add(r, b) == a
  {
    Tuple(a.x - b.x, a.y - b.y, a.z - b.z, a.w - b.w)
  }

  /** `Add for Tuple`: componentwise sum. A point plus a vector is a point,
      two vectors add up to a vector. */
  function Add(a: Tuple, b: Tuple): (r: Tuple)
    ensures a.w == 1.0 && b.w == 0.0 ==> r.w == 1.0
    ensures a.w == 0.0 && b.w == 0.0 ==> r.w == 0.0
  {
    Tuple(a.x + b.x, a.y + b.y, a.z + b.z, a.w + b.w)
  }

  /** `Neg for Tuple`: the additive inverse, all four signs flipped. */
  function Neg(a: Tuple): (r: Tuple)
    ensures Add(a, r) == Zero
  {
    Tuple(-a.x, -a.y, -a.z, -a.w)
  }

  /** `Mul<f64> for Tuple`: every component, `w` included, is scaled. */
  function Scale(a: Tuple, k: real): (r: Tuple)
    ensures k == -1.0 ==> r == Neg(a)
    ensures k == 1.0 ==> r == a
  {
    Tuple(a.x * k, a.y * k, a.z * k, a.w * k)
  }

  /** `Div<f64> for Tuple`: division by a non-zero scalar, undone by scaling. */
  function Div(a: Tuple, k: real): (r: Tuple)
    requires k != 0.0
    ensures Scale(r, k) == a
  {
    Tuple(a.x / k, a.y / k, a.z / k, a.w / k)
  }

  /** `Tuple::cross`: always a vector (w = 0, whatever the inputs' `w`). */
  function Cross(a: Tuple, b: Tuple): (r: Tuple)
    ensures r.w == 0.0 && IsVector(r)
  {
    NewVector(a.y * b.z - a.z * b.y, a.z * b.x - a.x * b.z, a.x * b.y - a.y * b.x)
  }

  /** `PartialEq for Tuple`: componentwise `is_same`. */
  predicate Eq(a: Tuple, b: Tuple)
  {
    IsSame(a.x, b.x) && IsSame(a.y, b.y) && IsSame(a.z, b.z) && IsSame(a.w, b.w)
  }

  /** Approximate equality is reflexive and symmetric, and a tuple differing in
      one component by more than the tolerance is not equal. */
  lemma EqReflexiveSymmetric(a: Tuple, b: Tuple)
    ensures Eq(a, a)
    ensures Eq(a, b) <==> Eq(b, a)
    ensures Abs(a.w - b.w) > Tolerance ==> !Eq(a, b)
  {
  }

  /** Addition is commutative and associative; subtraction is adding the
      negation; the sum of two points is neither a point nor a vector. */
  lemma AddLaws(a: Tuple, b: Tuple, c: Tuple)
    ensures Add(a, b) == Add(b, a)
    ensures Add(Add(a, b), c) == Add(a, Add(b, c))
    ensures Sub(a, b) == Add(a, Neg(b))
    ensures Neg(Neg(a)) == a
    ensures a.w == 1.0 && b.w == 1.0 ==> !IsPoint(Add(a, b)) && !IsVector(Add(a, b))
  {
  }

  /** The type rules of subtraction: point - point is a vector, point - vector
      is a point, vector - vector is a vector. */
  lemma SubKinds(a: Tuple, b: Tuple)
    ensures a.w == 1.0 && b.w == 1.0 ==> IsVector(Sub(a, b))
    ensures a.w == 1.0 && b.w == 0.0 ==> IsPoint(Sub(a, b))
    ensures a.w == 0.0 && b.w == 0.0 ==> IsVector(Sub(a, b))
  {
  }

  /** `dot` is symmetric and bilinear. */
  lemma DotLaws(a: Tuple, b: Tuple, c: Tuple, k: real)
    ensures Dot(a, b) == Dot(b, a)
    ensures Dot(Add(a, b), c) == Dot(a, c) + Dot(b, c)
    ensures Dot(Scale(a, k), b) == k * Dot(a, b)
  {
  }

  /** `cross` is anticommutative, parallel operands have a zero cross
      product, and the product is orthogonal to the x/y/z parts of both
      operands. */
  lemma CrossLaws(a: Tuple, b: Tuple)
    ensures Cross(a, b) == Neg(Cross(b, a))
    ensures Cross(a, a) == Zero
    ensures Cross(a, b).x * a.x + Cross(a, b).y * a.y + Cross(a, b).z * a.z == 0.0
    ensures Cross(a, b).x * b.x + Cross(a, b).y * b.y + Cross(a, b).z * b.z == 0.0
  {
  }

  /** The arithmetic cases of the source's unit tests. */
  lemma TupleExamples()
    ensures Add(Tuple(3.0, -2.0, 5.0, 1.0), Tuple(-2.0, 3.0, 1.0, 0.0)) == Tuple(1.0, 1.0, 6.0, 1.0)
    ensures Sub(NewPoint(3.0, 2.0, 1.0), NewVector(5.0, 6.0, 7.0)) == NewPoint(-2.0, -4.0, -6.0)
    ensures Sub(NewVector(3.0, 2.0, 1.0), NewVector(5.0, 6.0, 7.0)) == NewVector(-2.0, -4.0, -6.0)
    ensures Neg(Tuple(1.0, -2.0, 3.0, -4.0)) == Tuple(-1.0, 2.0, -3.0, 4.0)
    ensures Scale(Tuple(1.0, -2.0, 3.0, -4.0), 3.5) == Tuple(3.5, -7.0, 10.5, -14.0)
    ensures Div(Tuple(1.0, -2.0, 3.0, -4.0), 2.0) == Tuple(0.5, -1.0, 1.5, -2.0)
    ensures IsVector(Tuple(1.0, 2.0, 3.0, 0.0)) && !IsPoint(Tuple(1.0, 2.0, 3.0, 0.0))
    ensures IsPoint(Tuple(1.0, 2.0, 3.0, 1.0)) && !IsVector(Tuple(1.0, 2.0, 3.0, 1.0))
  {
  }
}
