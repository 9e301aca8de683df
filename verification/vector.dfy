/** Free vectors (src/maths/vector.rs): a typed wrapper around a tuple whose
    constructors fix `w = 0`. */
module Vectors {
  import T = Tuples

  datatype Vector = Vector(data: T.Tuple)

  function X(v: Vector): real { v.data.x }
  function Y(v: Vector): real { v.data.y }
  function Z(v: Vector): real { v.data.z }
  function W(v: Vector): real { v.data.w }

  /** `Vector::new`: the coordinates read back unchanged and `w` is 0. */
  function New(x: real, y: real, z: real): (v: Vector)
    ensures X(v) == x && Y(v) == y && Z(v) == z && W(v) == 0.0
  {
    Vector(T.NewVector(x, y, z))
  }

  /** `Vector::up`: the unit vector along +y. */
  function Up(): (v: Vector)
    ensures X(v) == 0.0 && Y(v) == 1.0 && Z(v) == 0.0 && W(v) == 0.0
    ensures Dot(v, v) == 1.0
  {
    New(0.0, 1.0, 0.0)
  }

  /** `Vector::dot`: the sum of the four componentwise products. */
  function Dot(a: Vector, b: Vector): real
  {
    X(a) * X(b) + Y(a) * Y(b) + Z(a) * Z(b) + W(a) * W(b)
  }

  /** `Vector::cross`: a vector (w = 0) orthogonal to both operands. */
  function Cross(a: Vector, b: Vector): (r: Vector)
    ensures W(r) == 0.0
  {
    New(Y(a) * Z(b) - Z(a) * Y(b), Z(a) * X(b) - X(a) * Z(b), X(a) * Y(b) - Y(a) * X(b))
  }

  /** `Sub for Vector`: componentwise difference; vectors stay vectors. */
  function Sub(a: Vector, b: Vector): (r: Vector)
    ensures W(a) == 0.0 && W(b) == 0.0 ==> W(r) == 0.0
    ensures T.Add(r.data, b.data) == a.data
  {
    Vector(T.Sub(a.data, b.data))
  }

  /** `Mul<f64> for Vector`: every component is scaled. */
  function Scale(a: Vector, k: real): (r: Vector)
    ensures W(a) == 0.0 ==> W(r) == 0.0
    ensures k == 1.0 ==> r == a
  {
    Vector(T.Scale(a.data, k))
  }

  /** `Neg for Vector`: the additive inverse; vectors stay vectors. */
  function Neg(a: Vector): (r: Vector)
    ensures W(a) == 0.0 ==> W(r) == 0.0
    ensures T.Add(a.data, r.data) == T.Zero
  {
    Vector(T.Neg(a.data))
  }

  /** `Vector::len` squared. The square root itself is not modelled: a
      caller passes the length as a number whose square is this value. */
  function LenSquared(v: Vector): (r: real)
    ensures r >= 0.0
  {
    X(v) * X(v) + Y(v) * Y(v) + Z(v) * Z(v) + W(v) * W(v)
  }

  /** `len` is the length of `v`: non-negative with the right square. */
  predicate IsLength(v: Vector, len: real)
  {
    len >= 0.0 && len * len == LenSquared(v)
  }

  /** `Vector::normalize`: `v` divided by its length `len` (division by a
      zero length is outside the model). Scaling back by `len` restores
      `v`, and a unit vector results when `len` is the length. */
  function Normalize(v: Vector, len: real): (r: Vector)
    requires len != 0.0
    ensures Scale(r, len) == v
    ensures W(v) == 0.0 ==> W(r) == 0.0
  {
    Vector(T.Div(v.data, len))
  }

  /** Normalizing by the true length gives a vector of length 1. */
  lemma {:induction false} NormalizeUnit(v: Vector, len: real)
    requires IsLength(v, len) && len != 0.0
    ensures LenSquared(Normalize(v, len)) == 1.0
  {
    var n := Normalize(v, len);
    ScaleLenSquared(n, len);
    UnitFromScaled(LenSquared(v), LenSquared(n), len * len, len);
  }

  /** A squared length `lv` that is both `k == len * len` and `ln * k`
      forces `ln == 1`. */
  lemma UnitFromScaled(lv: real, ln: real, k: real, len: real)
    requires len != 0.0 && k == len * len
    requires k == lv && lv == ln * k
    ensures ln == 1.0
  {
    SquareNonZero(len, k);
    OneFactor(ln, k);
  }

  /** Scaling by `len` scales the squared length by `len * len`. */
  lemma ScaleLenSquared(n: Vector, len: real)
    ensures LenSquared(Scale(n, len)) == LenSquared(n) * (len * len)
  {
    ScaledSquares(X(n), Y(n), Z(n), W(n), len);
  }

  /** A product is zero only when a factor is. */
  lemma ZeroProduct(a: real, b: real)
    requires a * b == 0.0 && b != 0.0
    ensures a == 0.0
  {
  }

  /** A product of non-zero numbers is non-zero. */
  lemma ZeroProductFree(a: real, b: real)
    requires a != 0.0 && b != 0.0
    ensures a * b != 0.0
  {
    if a * b == 0.0 {
      ZeroProduct(a, b);
    }
  }

  /** The square of a non-zero number is non-zero. */
  lemma SquareNonZero(x: real, k: real)
    requires x != 0.0 && k == x * x
    ensures k != 0.0
  {
    if k == 0.0 {
      ZeroProduct(x, x);
    }
  }

  /** Scaling every component by `len` scales the squared length by `len * len`. */
  lemma ScaledSquares(qx: real, qy: real, qz: real, qw: real, len: real)
    ensures (qx * len) * (qx * len) + (qy * len) * (qy * len) + (qz * len) * (qz * len) + (qw * len) * (qw * len)
         == (qx * qx + qy * qy + qz * qz + qw * qw) * (len * len)
  {
  }

  /** `k == s * k` with `k` non-zero forces `s == 1`. */
  lemma OneFactor(s: real, k: real)
    requires k != 0.0
    requires k == s * k
    ensures s == 1.0
  {
    assert (s - 1.0) * k == s * k - k;
    ZeroProduct(s - 1.0, k);
  }

  /** Derived `PartialEq`: approximate equality of the wrapped tuples. */
  predicate Eq(a: Vector, b: Vector)
  {
    T.Eq(a.data, b.data)
  }

  /** `Vector::reflect`: `v - n * 2 * dot(v, n)`. */
  function Reflect(v: Vector, n: Vector): (r: Vector)
    ensures W(v) == 0.0 && W(n) == 0.0 ==> W(r) == 0.0
  {
    Sub(v, Scale(Scale(n, 2.0), Dot(v, n)))
  }

  /** The reflection written out componentwise, with `d` the dot product of
      the incoming vector and the normal. */
  lemma ReflectComponents(v: Vector, n: Vector, d: real)
    requires d == Dot(v, n)
    ensures X(Reflect(v, n)) == X(v) - X(n) * 2.0 * d && Y(Reflect(v, n)) == Y(v) - Y(n) * 2.0 * d
    ensures Z(Reflect(v, n)) == Z(v) - Z(n) * 2.0 * d && W(Reflect(v, n)) == W(v) - W(n) * 2.0 * d
  {
    var n2 := Scale(n, 2.0);
    assert n2.data == T.Tuple(X(n) * 2.0, Y(n) * 2.0, Z(n) * 2.0, W(n) * 2.0);
    var s := Scale(n2, d);
    assert s.data == T.Tuple(X(n) * 2.0 * d, Y(n) * 2.0 * d, Z(n) * 2.0 * d, W(n) * 2.0 * d);
  }

  /** For a unit normal, a reflection flips the component along the normal,
      keeps the squared length, and reflecting twice gives the vector back. */
  lemma {:induction false} ReflectInvolution(v: Vector, n: Vector)
    requires Dot(n, n) == 1.0
    ensures Dot(Reflect(v, n), n) == -Dot(v, n)
    ensures Dot(Reflect(v, n), Reflect(v, n)) == Dot(v, v)
    ensures Reflect(Reflect(v, n), n) == v
  {
    ReflectFlips(v, n);
    ReflectKeepsLength(v, n);
    ReflectTwice(v, n);
  }

  lemma {:induction false} ReflectFlips(v: Vector, n: Vector)
    requires Dot(n, n) == 1.0
    ensures Dot(Reflect(v, n), n) == -Dot(v, n)
  {
    var d := Dot(v, n);
    var r := Reflect(v, n);
    ReflectComponents(v, n, d);
    ReflectedAlgebra(X(r), Y(r), Z(r), W(r), X(v), Y(v), Z(v), W(v), X(n), Y(n), Z(n), W(n), d);
  }

  lemma {:induction false} ReflectKeepsLength(v: Vector, n: Vector)
    requires Dot(n, n) == 1.0
    ensures Dot(Reflect(v, n), Reflect(v, n)) == Dot(v, v)
  {
    var d := Dot(v, n);
    var r := Reflect(v, n);
    ReflectComponents(v, n, d);
    ReflectedAlgebra(X(r), Y(r), Z(r), W(r), X(v), Y(v), Z(v), W(v), X(n), Y(n), Z(n), W(n), d);
  }

  /** `ReflectAlgebra` with the reflected components named. */
  lemma ReflectedAlgebra(rx: real, ry: real, rz: real, rw: real,
                         vx: real, vy: real, vz: real, vw: real,
                         nx: real, ny: real, nz: real, nw: real, d: real)
    requires rx == vx - nx * 2.0 * d && ry == vy - ny * 2.0 * d
    requires rz == vz - nz * 2.0 * d && rw == vw - nw * 2.0 * d
    requires d == vx * nx + vy * ny + vz * nz + vw * nw
    requires nx * nx + ny * ny + nz * nz + nw * nw == 1.0
    ensures rx * nx + ry * ny + rz * nz + rw * nw == -d
    ensures rx * rx + ry * ry + rz * rz + rw * rw == vx * vx + vy * vy + vz * vz + vw * vw
  {
    ReflectAlgebra(vx, vy, vz, vw, nx, ny, nz, nw, d);
  }

  lemma {:induction false} ReflectTwice(v: Vector, n: Vector)
    requires Dot(n, n) == 1.0
    ensures Reflect(Reflect(v, n), n) == v
  {
    var d := Dot(v, n);
    var r := Reflect(v, n);
    ReflectFlips(v, n);
    ReflectComponents(v, n, d);
    ReflectComponents(r, n, -d);
    assert Reflect(r, n).data == T.Tuple(X(v), Y(v), Z(v), W(v)) == v.data;
  }

  /** The polynomial identities behind `ReflectInvolution`. */
  lemma ReflectAlgebra(vx: real, vy: real, vz: real, vw: real,
                       nx: real, ny: real, nz: real, nw: real, d: real)
    requires d == vx * nx + vy * ny + vz * nz + vw * nw
    requires nx * nx + ny * ny + nz * nz + nw * nw == 1.0
    ensures (vx - nx * 2.0 * d) * nx + (vy - ny * 2.0 * d) * ny
          + (vz - nz * 2.0 * d) * nz + (vw - nw * 2.0 * d) * nw == -d
    ensures (vx - nx * 2.0 * d) * (vx - nx * 2.0 * d) + (vy - ny * 2.0 * d) * (vy - ny * 2.0 * d)
          + (vz - nz * 2.0 * d) * (vz - nz * 2.0 * d) + (vw - nw * 2.0 * d) * (vw - nw * 2.0 * d)
         == vx * vx + vy * vy + vz * vz + vw * vw
  {
    var s := nx * nx + ny * ny + nz * nz + nw * nw;
    assert (vx - nx * 2.0 * d) * nx + (vy - ny * 2.0 * d) * ny
         + (vz - nz * 2.0 * d) * nz + (vw - nw * 2.0 * d) * nw == d - 2.0 * d * s;
    assert (vx - nx * 2.0 * d) * (vx - nx * 2.0 * d) + (vy - ny * 2.0 * d) * (vy - ny * 2.0 * d)
         + (vz - nz * 2.0 * d) * (vz - nz * 2.0 * d) + (vw - nw * 2.0 * d) * (vw - nw * 2.0 * d)
        == vx * vx + vy * vy + vz * vz + vw * vw - 4.0 * d * d + 4.0 * d * d * s;
  }

  /** `cross` is anticommutative and orthogonal to both operands. */
  lemma CrossLaws(a: Vector, b: Vector)
    ensures Cross(a, b) == Neg(Cross(b, a))
    ensures W(a) == 0.0 ==> Dot(Cross(a, b), a) == 0.0
    ensures W(b) == 0.0 ==> Dot(Cross(a, b), b) == 0.0
  {
  }

  /** The dot-product case of the source's unit tests. */
  lemma DotExample()
    ensures Dot(New(1.0, 2.0, 3.0), New(2.0, 3.0, 4.0)) == 20.0
  {
  }

  /** The subtraction case of the source's unit tests. */
  lemma SubExample()
    ensures Sub(New(3.0, 2.0, 1.0), New(5.0, 6.0, 7.0)) == New(-2.0, -4.0, -6.0)
  {
  }

  /** The negation case of the source's unit tests. */
  lemma NegExample()
    ensures Neg(New(1.0, -2.0, 3.0)) == New(-1.0, 2.0, -3.0)
  {
  }

  /** The cross-product cases of the source's unit tests. */
  lemma CrossExample()
    ensures Cross(New(1.0, 2.0, 3.0), New(2.0, 3.0, 4.0)) == New(-1.0, 2.0, -1.0)
  {
    CrossLaws(New(2.0, 3.0, 4.0), New(1.0, 2.0, 3.0));
  }

  lemma CrossExampleSwapped()
    ensures Cross(New(2.0, 3.0, 4.0), New(1.0, 2.0, 3.0)) == New(1.0, -2.0, 1.0)
  {
  }

  lemma ReflectStepDot()
    ensures Dot(New(1.0, -1.0, 0.0), New(0.0, 1.0, 0.0)) == -1.0
  {
  }

  lemma ReflectStepDouble()
    ensures Scale(New(0.0, 1.0, 0.0), 2.0) == New(0.0, 2.0, 0.0)
  {
  }

  lemma ReflectStepFlip()
    ensures Scale(New(0.0, 2.0, 0.0), -1.0) == New(0.0, -2.0, 0.0)
  {
  }

  lemma ReflectStepSub()
    ensures Sub(New(1.0, -1.0, 0.0), New(0.0, -2.0, 0.0)) == New(1.0, 1.0, 0.0)
  {
  }

  /** A vector approaching at 45 degrees is reflected off a horizontal
      surface. */
  lemma ReflectExample()
    ensures Reflect(New(1.0, -1.0, 0.0), New(0.0, 1.0, 0.0)) == New(1.0, 1.0, 0.0)
  {
    ReflectStepDot();
    ReflectStepDouble();
    ReflectStepFlip();
    ReflectStepSub();
  }
}
