/** Matrices acting on tuples, and the transformation matrices built in
    src/maths/matrix4x4.rs: translation, scaling, the three rotations,
    shearing, the view transform and the fluent builders. The sine and
    cosine of a rotation angle are passed in as numbers, and the lengths
    that `normalize` divides by are passed in as well. */
module Transforms {
  import opened Wrappers
  import T = Tuples
  import V = Vectors
  import P = Points
  import M = Matrix4x4

  /** Row `r` of `m` against the four components of `t`. */
  function RowTimes(m: M.Matrix, r: nat, t: T.Tuple): real
    requires r < 4
  {
    M.Dot4(M.Get(m, r, 0), M.Get(m, r, 1), M.Get(m, r, 2), M.Get(m, r, 3), t.x, t.y, t.z, t.w)
  }

  /** The last row is (0, 0, 0, 1): the matrix keeps `w`, so it maps points
      to points and vectors to vectors. */
  predicate IsAffine(m: M.Matrix)
  {
    M.Get(m, 3, 0) == 0.0 && M.Get(m, 3, 1) == 0.0 && M.Get(m, 3, 2) == 0.0 && M.Get(m, 3, 3) == 1.0
  }

  /** `Mul<Tuple> for Matrix4x4`: each component is one row against the
      tuple. */
  function MulTuple(m: M.Matrix, t: T.Tuple): (r: T.Tuple)
    ensures IsAffine(m) ==> r.w == t.w
  {
    T.Tuple(RowTimes(m, 0, t), RowTimes(m, 1, t), RowTimes(m, 2, t), RowTimes(m, 3, t))
  }

  /** `Mul<Vector> for Matrix4x4`. */
  function MulVector(m: M.Matrix, v: V.Vector): (r: V.Vector)
    ensures r.data == MulTuple(m, v.data)
    ensures IsAffine(m) && V.W(v) == 0.0 ==> V.W(r) == 0.0
  {
    V.Vector(MulTuple(m, v.data))
  }

  /** `Mul<Point> for Matrix4x4`. */
  function MulPoint(m: M.Matrix, p: P.Point): (r: P.Point)
    ensures r.data == MulTuple(m, p.data)
    ensures IsAffine(m) && P.W(p) == 1.0 ==> P.W(r) == 1.0
  {
    P.Point(MulTuple(m, p.data))
  }

  /** The identity leaves every tuple unchanged. */
  lemma MulTupleIdentity(t: T.Tuple)
    ensures MulTuple(M.Identity(), t) == t
  {
  }

  /** One component of the product law, over plain numbers. */
  lemma ComposeRow(a0: real, a1: real, a2: real, a3: real,
                   b00: real, b01: real, b02: real, b03: real,
                   b10: real, b11: real, b12: real, b13: real,
                   b20: real, b21: real, b22: real, b23: real,
                   b30: real, b31: real, b32: real, b33: real,
                   x: real, y: real, z: real, w: real)
    ensures M.Dot4(a0 * b00 + a1 * b10 + a2 * b20 + a3 * b30,
                   a0 * b01 + a1 * b11 + a2 * b21 + a3 * b31,
                   a0 * b02 + a1 * b12 + a2 * b22 + a3 * b32,
                   a0 * b03 + a1 * b13 + a2 * b23 + a3 * b33, x, y, z, w)
         == M.Dot4(a0, a1, a2, a3,
                   M.Dot4(b00, b01, b02, b03, x, y, z, w), M.Dot4(b10, b11, b12, b13, x, y, z, w),
                   M.Dot4(b20, b21, b22, b23, x, y, z, w), M.Dot4(b30, b31, b32, b33, x, y, z, w))
  {
  }

  /** Row `r` of the product law, for an `ab` whose row `r` is that of the
      product of `a` and `b`, and a `u` that is `b` applied to `t`. */
  lemma {:induction false} ComposeEntry(a: M.Matrix, b: M.Matrix, ab: M.Matrix, t: T.Tuple, u: T.Tuple, r: nat)
    requires r < 4
    requires forall k: nat :: k < 4 ==> M.Get(ab, r, k) == M.ProductEntry(a, b, r, k)
    requires u.x == RowTimes(b, 0, t) && u.y == RowTimes(b, 1, t)
    requires u.z == RowTimes(b, 2, t) && u.w == RowTimes(b, 3, t)
    ensures RowTimes(ab, r, t) == RowTimes(a, r, u)
  {
    assert M.Get(ab, r, 0) == M.ProductEntry(a, b, r, 0) && M.Get(ab, r, 1) == M.ProductEntry(a, b, r, 1);
    assert M.Get(ab, r, 2) == M.ProductEntry(a, b, r, 2) && M.Get(ab, r, 3) == M.ProductEntry(a, b, r, 3);
    var a0, a1, a2, a3 := M.Get(a, r, 0), M.Get(a, r, 1), M.Get(a, r, 2), M.Get(a, r, 3);
    ComposeRow(a0, a1, a2, a3, b[0], b[1], b[2], b[3], b[4], b[5], b[6], b[7],
               b[8], b[9], b[10], b[11], b[12], b[13], b[14], b[15], t.x, t.y, t.z, t.w);
  }

  /** Applying a product applies the right factor first: `(a b) t = a (b t)`. */
  lemma {:induction false} MulTupleCompose(a: M.Matrix, b: M.Matrix, t: T.Tuple)
    ensures MulTuple(M.Mul(a, b), t) == MulTuple(a, MulTuple(b, t))
  {
    var ab, u := M.Mul(a, b), MulTuple(b, t);
    ComposeEntry(a, b, ab, t, u, 0);
    ComposeEntry(a, b, ab, t, u, 1);
    ComposeEntry(a, b, ab, t, u, 2);
    ComposeEntry(a, b, ab, t, u, 3);
  }

  /** The inverse undoes the matrix on every tuple. */
  lemma {:induction false} MulTupleInverse(m: M.Matrix, t: T.Tuple)
    requires M.IsInvertible(m)
    ensures MulTuple(M.InverseOf(m), MulTuple(m, t)) == t
    ensures MulTuple(m, MulTuple(M.InverseOf(m), t)) == t
  {
    M.MulInverse(m);
    MulTupleCompose(M.InverseOf(m), m, t);
    MulTupleCompose(m, M.InverseOf(m), t);
    MulTupleIdentity(t);
  }

  /** `Matrix4x4::translation`: the identity with the offsets written into
      column 3 by three `set_at` calls. */
  function Translation(x: real, y: real, z: real): (m: M.Matrix)
    ensures m == M.New(1.0, 0.0, 0.0, x, 0.0, 1.0, 0.0, y, 0.0, 0.0, 1.0, z, 0.0, 0.0, 0.0, 1.0)
    ensures IsAffine(m)
  {
    M.Update(M.Update(M.Update(M.Identity(), 0, 3, x), 1, 3, y), 2, 3, z)
  }

  /** A translation moves a point by the offset vector and leaves a vector
      unchanged. */
  lemma TranslationMoves(x: real, y: real, z: real, p: P.Point, v: V.Vector)
    requires P.W(p) == 1.0 && V.W(v) == 0.0
    ensures MulPoint(Translation(x, y, z), p) == P.AddVector(p, V.New(x, y, z))
    ensures MulVector(Translation(x, y, z), v) == v
  {
  }

  /** A translation has determinant 1. */
  lemma TranslationDeterminant(x: real, y: real, z: real)
    ensures M.Determinant(Translation(x, y, z)) == 1.0
  {
    M.DeterminantIsLeibniz(Translation(x, y, z));
  }

  /** The inverse of a translation is the opposite translation. */
  lemma {:induction false} TranslationInverse(x: real, y: real, z: real)
    ensures M.Inverse(Translation(x, y, z)) == Some(Translation(-x, -y, -z))
  {
    TranslationDeterminant(x, y, z);
    TranslationProduct(x, y, z);
    InverseFromUnitProduct(Translation(x, y, z), Translation(-x, -y, -z));
  }

  /** `InverseUnique` for a matrix with determinant 1. */
  lemma InverseFromUnitProduct(m: M.Matrix, n: M.Matrix)
    requires M.Determinant(m) == 1.0 && M.Mul(m, n) == M.Identity()
    ensures M.Inverse(m) == Some(n)
  {
    M.InverseUnique(m, n);
  }

  /** Translating forth and back is the identity. */
  lemma TranslationProduct(x: real, y: real, z: real)
    ensures M.Mul(Translation(x, y, z), Translation(-x, -y, -z)) == M.Identity()
  {
    TranslationsAdd(x, y, z, -x, -y, -z);
    assert Translation(0.0, 0.0, 0.0) == M.Identity();
  }

  /** Two translations compose to the translation by the summed offsets. */
  lemma TranslationsAdd(x: real, y: real, z: real, x': real, y': real, z': real)
    ensures M.Mul(Translation(x, y, z), Translation(x', y', z')) == Translation(x + x', y + y', z + z')
  {

  }

  /** `Matrix4x4::scaling`: the factors on the diagonal. */
  function Scaling(x: real, y: real, z: real): (m: M.Matrix)
    ensures IsAffine(m)
    ensures forall t: T.Tuple :: MulTuple(m, t) == T.Tuple(x * t.x, y * t.y, z * t.z, t.w)
  {
    M.New(x, 0.0, 0.0, 0.0, 0.0, y, 0.0, 0.0, 0.0, 0.0, z, 0.0, 0.0, 0.0, 0.0, 1.0)
  }

  /** A scaling has the product of its factors as determinant. */
  lemma ScalingDeterminant(x: real, y: real, z: real)
    ensures M.Determinant(Scaling(x, y, z)) == x * y * z
  {
    M.DeterminantIsLeibniz(Scaling(x, y, z));
  }

  /** Two scalings compose to the scaling by the products of the factors. */
  lemma ScalingsMultiply(x: real, y: real, z: real, x': real, y': real, z': real)
    ensures M.Mul(Scaling(x, y, z), Scaling(x', y', z')) == Scaling(x * x', y * y', z * z')
  {
    var a, b := Scaling(x, y, z), Scaling(x', y', z');
    assert M.ProductEntry(a, b, 0, 0) == x * x';
    assert M.ProductEntry(a, b, 1, 1) == y * y';
    assert M.ProductEntry(a, b, 2, 2) == z * z';
  }

  /** A scaling with no zero factor is inverted by the reciprocal factors;
      one with a zero factor has no inverse. */
  lemma {:induction false} ScalingInverse(x: real, y: real, z: real)
    ensures x != 0.0 && y != 0.0 && z != 0.0 ==>
              M.Inverse(Scaling(x, y, z)) == Some(Scaling(1.0 / x, 1.0 / y, 1.0 / z))
    ensures x == 0.0 || y == 0.0 || z == 0.0 ==> M.Inverse(Scaling(x, y, z)) == None
  {
    if x != 0.0 && y != 0.0 && z != 0.0 {
      ScalingRegular(x, y, z);
    } else {
      ScalingDeterminant(x, y, z);
      SingularFromDeterminant(Scaling(x, y, z));
    }
  }

  lemma {:induction false} ScalingRegular(x: real, y: real, z: real)
    requires x != 0.0 && y != 0.0 && z != 0.0
    ensures M.Inverse(Scaling(x, y, z)) == Some(Scaling(1.0 / x, 1.0 / y, 1.0 / z))
  {
    ScalingInvertible(x, y, z);
    ReciprocalScaling(x, y, z);
    M.InverseUnique(Scaling(x, y, z), Scaling(1.0 / x, 1.0 / y, 1.0 / z));
  }

  lemma {:induction false} ScalingInvertible(x: real, y: real, z: real)
    requires x != 0.0 && y != 0.0 && z != 0.0
    ensures M.IsInvertible(Scaling(x, y, z))
  {
    ScalingDeterminant(x, y, z);
    NonZeroProduct(x, y, z);
  }

  /** Scaling by the factors and then by their reciprocals is the identity. */
  lemma {:induction false} ReciprocalScaling(x: real, y: real, z: real)
    requires x != 0.0 && y != 0.0 && z != 0.0
    ensures M.Mul(Scaling(x, y, z), Scaling(1.0 / x, 1.0 / y, 1.0 / z)) == M.Identity()
  {
    var x', y', z' := 1.0 / x, 1.0 / y, 1.0 / z;
    ScalingsMultiply(x, y, z, x', y', z');
    assert x * x' == 1.0 && y * y' == 1.0 && z * z' == 1.0;
    assert Scaling(x * x', y * y', z * z') == Scaling(1.0, 1.0, 1.0) == M.Identity();
  }

  /** A matrix with determinant 0 has no inverse. */
  lemma SingularFromDeterminant(m: M.Matrix)
    requires M.Determinant(m) == 0.0
    ensures M.Inverse(m) == None
  {
  }

  /** A product of non-zero numbers is non-zero. */
  lemma NonZeroProduct(x: real, y: real, z: real)
    requires x != 0.0 && y != 0.0 && z != 0.0
    ensures x * y * z != 0.0
  {
    V.ZeroProductFree(x, y);
    V.ZeroProductFree(x * y, z);
  }

  /** The cosine `c` and the sine `s` of one angle. */
  predicate OnUnitCircle(c: real, s: real)
  {
    c * c + s * s == 1.0
  }

  /** `Matrix4x4::rotation_x` for an angle with cosine `c` and sine `s`:
      x is kept, and (y, z) turns from y toward z. */
  function RotationX(c: real, s: real): (m: M.Matrix)
    ensures IsAffine(m)
    ensures forall t: T.Tuple :: MulTuple(m, t) == T.Tuple(t.x, c * t.y - s * t.z, s * t.y + c * t.z, t.w)
  {
    M.New(1.0, 0.0, 0.0, 0.0, 0.0, c, -s, 0.0, 0.0, s, c, 0.0, 0.0, 0.0, 0.0, 1.0)
  }

  /** `Matrix4x4::rotation_y`: y is kept, and (z, x) turns from z toward x. */
  function RotationY(c: real, s: real): (m: M.Matrix)
    ensures IsAffine(m)
    ensures forall t: T.Tuple :: MulTuple(m, t) == T.Tuple(c * t.x + s * t.z, t.y, c * t.z - s * t.x, t.w)
  {
    M.New(c, 0.0, s, 0.0, 0.0, 1.0, 0.0, 0.0, -s, 0.0, c, 0.0, 0.0, 0.0, 0.0, 1.0)
  }

  /** `Matrix4x4::rotation_z`: z is kept, and (x, y) turns from x toward y. */
  function RotationZ(c: real, s: real): (m: M.Matrix)
    ensures IsAffine(m)
    ensures forall t: T.Tuple :: MulTuple(m, t) == T.Tuple(c * t.x - s * t.y, s * t.x + c * t.y, t.z, t.w)
  {
    M.New(c, -s, 0.0, 0.0, s, c, 0.0, 0.0, 0.0, 0.0, 1.0, 0.0, 0.0, 0.0, 0.0, 1.0)
  }

  /** A rotation about x has determinant `c * c + s * s`, which is 1 for a
      true angle. */
  lemma RotationXDeterminant(c: real, s: real)
    requires OnUnitCircle(c, s)
    ensures M.Determinant(RotationX(c, s)) == 1.0
  {
    M.DeterminantIsLeibniz(RotationX(c, s));
  }

  /** Rotating by an angle and then by its opposite is the identity. */
  lemma RotationXProduct(c: real, s: real)
    requires OnUnitCircle(c, s)
    ensures M.Mul(RotationX(c, s), RotationX(c, -s)) == M.Identity()
  {
    var a, b := RotationX(c, s), RotationX(c, -s);
    assert M.ProductEntry(a, b, 1, 1) == c * c + s * s;
    assert M.ProductEntry(a, b, 2, 2) == s * s + c * c;
    assert M.ProductEntry(a, b, 1, 2) == 0.0 && M.ProductEntry(a, b, 2, 1) == 0.0;
  }

  /** The inverse of a rotation about x is the rotation by the opposite
      angle, which is also its transpose. */
  lemma {:induction false} RotationXInverse(c: real, s: real)
    requires OnUnitCircle(c, s)
    ensures M.Inverse(RotationX(c, s)) == Some(RotationX(c, -s))
    ensures RotationX(c, -s) == M.Transpose(RotationX(c, s))
  {
    RotationXDeterminant(c, s);
    RotationXProduct(c, s);
    InverseFromUnitProduct(RotationX(c, s), RotationX(c, -s));
  }

  /** A rotation about y has determinant 1 for a true angle. */
  lemma RotationYDeterminant(c: real, s: real)
    requires OnUnitCircle(c, s)
    ensures M.Determinant(RotationY(c, s)) == 1.0
  {
    M.DeterminantIsLeibniz(RotationY(c, s));
  }

  lemma RotationYProduct(c: real, s: real)
    requires OnUnitCircle(c, s)
    ensures M.Mul(RotationY(c, s), RotationY(c, -s)) == M.Identity()
  {
    var a, b := RotationY(c, s), RotationY(c, -s);
    assert M.ProductEntry(a, b, 0, 0) == c * c + s * s;
    assert M.ProductEntry(a, b, 2, 2) == s * s + c * c;
    assert M.ProductEntry(a, b, 0, 2) == 0.0 && M.ProductEntry(a, b, 2, 0) == 0.0;
  }

  /** The inverse of a rotation about y is the rotation by the opposite
      angle, which is also its transpose. */
  lemma {:induction false} RotationYInverse(c: real, s: real)
    requires OnUnitCircle(c, s)
    ensures M.Inverse(RotationY(c, s)) == Some(RotationY(c, -s))
    ensures RotationY(c, -s) == M.Transpose(RotationY(c, s))
  {
    RotationYDeterminant(c, s);
    RotationYProduct(c, s);
    InverseFromUnitProduct(RotationY(c, s), RotationY(c, -s));
  }

  /** A rotation about z has determinant 1 for a true angle. */
  lemma RotationZDeterminant(c: real, s: real)
    requires OnUnitCircle(c, s)
    ensures M.Determinant(RotationZ(c, s)) == 1.0
  {
    M.DeterminantIsLeibniz(RotationZ(c, s));
  }

  lemma RotationZProduct(c: real, s: real)
    requires OnUnitCircle(c, s)
    ensures M.Mul(RotationZ(c, s), RotationZ(c, -s)) == M.Identity()
  {
    var a, b := RotationZ(c, s), RotationZ(c, -s);
    assert M.ProductEntry(a, b, 0, 0) == c * c + s * s;
    assert M.ProductEntry(a, b, 1, 1) == s * s + c * c;
    assert M.ProductEntry(a, b, 0, 1) == 0.0 && M.ProductEntry(a, b, 1, 0) == 0.0;
  }

  /** The inverse of a rotation about z is the rotation by the opposite
      angle, which is also its transpose. */
  lemma {:induction false} RotationZInverse(c: real, s: real)
    requires OnUnitCircle(c, s)
    ensures M.Inverse(RotationZ(c, s)) == Some(RotationZ(c, -s))
    ensures RotationZ(c, -s) == M.Transpose(RotationZ(c, s))
  {
    RotationZDeterminant(c, s);
    RotationZProduct(c, s);
    InverseFromUnitProduct(RotationZ(c, s), RotationZ(c, -s));
  }

  /** `Matrix4x4::shearing`: each coordinate moves in proportion to the
      other two. */
  function Shearing(xy: real, xz: real, yx: real, yz: real, zx: real, zy: real): (m: M.Matrix)
    ensures IsAffine(m)
  {
    M.New(1.0, xy, xz, 0.0, yx, 1.0, yz, 0.0, zx, zy, 1.0, 0.0, 0.0, 0.0, 0.0, 1.0)
  }

  /** What a shearing does to a tuple. */
  lemma ShearingMoves(xy: real, xz: real, yx: real, yz: real, zx: real, zy: real, t: T.Tuple)
    ensures MulTuple(Shearing(xy, xz, yx, yz, zx, zy), t) ==
              T.Tuple(t.x + xy * t.y + xz * t.z, yx * t.x + t.y + yz * t.z, zx * t.x + zy * t.y + t.z, t.w)
  {
    var m := Shearing(xy, xz, yx, yz, zx, zy);
    assert RowTimes(m, 0, t) == t.x + xy * t.y + xz * t.z;
    assert RowTimes(m, 1, t) == yx * t.x + t.y + yz * t.z;
    assert RowTimes(m, 2, t) == zx * t.x + zy * t.y + t.z;
  }

  /** With every proportion zero a shearing is the identity. */
  lemma ShearingZero()
    ensures Shearing(0.0, 0.0, 0.0, 0.0, 0.0, 0.0) == M.Identity()
  {
  }

  /** `MulTupleCompose` for every tuple at once. */
  lemma ComposeAll(a: M.Matrix, b: M.Matrix)
    ensures forall t: T.Tuple :: MulTuple(M.Mul(a, b), t) == MulTuple(a, MulTuple(b, t))
  {
    forall t: T.Tuple
      ensures MulTuple(M.Mul(a, b), t) == MulTuple(a, MulTuple(b, t))
    {
      MulTupleCompose(a, b, t);
    }
  }

  /** `Matrix4x4::translate`: the translation is multiplied in on the left,
      so it acts after everything `m` already does. */
  function Translate(m: M.Matrix, x: real, y: real, z: real): (r: M.Matrix)
    ensures forall t: T.Tuple :: MulTuple(r, t) == MulTuple(Translation(x, y, z), MulTuple(m, t))
  {
    ComposeAll(Translation(x, y, z), m);
    M.Mul(Translation(x, y, z), m)
  }

  /** `Matrix4x4::scale`: the scaling acts after `m`. */
  function Scale(m: M.Matrix, x: real, y: real, z: real): (r: M.Matrix)
    ensures forall t: T.Tuple :: MulTuple(r, t) == MulTuple(Scaling(x, y, z), MulTuple(m, t))
  {
    ComposeAll(Scaling(x, y, z), m);
    M.Mul(Scaling(x, y, z), m)
  }

  /** `Matrix4x4::rotate_x`: the rotation acts after `m`. */
  function RotateX(m: M.Matrix, c: real, s: real): (r: M.Matrix)
    ensures forall t: T.Tuple :: MulTuple(r, t) == MulTuple(RotationX(c, s), MulTuple(m, t))
  {
    ComposeAll(RotationX(c, s), m);
    M.Mul(RotationX(c, s), m)
  }

  /** `Matrix4x4::rotate_y`: the rotation acts after `m`. */
  function RotateY(m: M.Matrix, c: real, s: real): (r: M.Matrix)
    ensures forall t: T.Tuple :: MulTuple(r, t) == MulTuple(RotationY(c, s), MulTuple(m, t))
  {
    ComposeAll(RotationY(c, s), m);
    M.Mul(RotationY(c, s), m)
  }

  /** `Matrix4x4::rotate_z`: the rotation acts after `m`. */
  function RotateZ(m: M.Matrix, c: real, s: real): (r: M.Matrix)
    ensures forall t: T.Tuple :: MulTuple(r, t) == MulTuple(RotationZ(c, s), MulTuple(m, t))
  {
    ComposeAll(RotationZ(c, s), m);
    M.Mul(RotationZ(c, s), m)
  }

  /** Because each builder multiplies on the left, a fluent chain that starts
      from the identity lists the transformations in the order they act:
      rotate, then scale, then translate gives `T * S * R`. */
  lemma {:induction false} FluentOrder(c: real, s: real, sx: real, sy: real, sz: real, x: real, y: real, z: real)
    ensures Translate(Scale(RotateX(M.Identity(), c, s), sx, sy, sz), x, y, z)
         == M.Mul(M.Mul(Translation(x, y, z), Scaling(sx, sy, sz)), RotationX(c, s))
  {
    M.IdentityUnit(RotationX(c, s));
    M.MulAssociative(Translation(x, y, z), Scaling(sx, sy, sz), RotationX(c, s));
  }

  /** The unit vector from `from` toward `to`, for `fwdLen` the length of
      `to - from`. */
  function Forward(from: P.Point, to: P.Point, fwdLen: real): V.Vector
    requires fwdLen != 0.0
  {
    V.Normalize(P.Sub(to, from), fwdLen)
  }

  /** The rotation part of `Matrix4x4::view`: rows `left`, `true_up` and
      `-forward`, where `left` is forward x up and `true_up` is left x
      forward. */
  function Orientation(forward: V.Vector, upn: V.Vector): (m: M.Matrix)
    ensures IsAffine(m)
  {
    var left := V.Cross(forward, upn);
    var trueUp := V.Cross(left, forward);
    M.New(V.X(left), V.Y(left), V.Z(left), 0.0,
          V.X(trueUp), V.Y(trueUp), V.Z(trueUp), 0.0,
          -V.X(forward), -V.Y(forward), -V.Z(forward), 0.0,
          0.0, 0.0, 0.0, 1.0)
  }

  /** `Matrix4x4::view`: the orientation after a translation that moves the
      eye `from` to the origin. `fwdLen` and `upLen` are the lengths of
      `to - from` and of `up`. */
  function View(from: P.Point, to: P.Point, up: V.Vector, fwdLen: real, upLen: real): (m: M.Matrix)
    requires fwdLen != 0.0 && upLen != 0.0
    ensures IsAffine(m)
  {
    var orientation := Orientation(Forward(from, to, fwdLen), V.Normalize(up, upLen));
    M.Mul(orientation, Translation(-P.X(from), -P.Y(from), -P.Z(from)))
  }

  /** The view transform takes the eye to the origin. */
  lemma {:induction false} ViewMovesEye(from: P.Point, to: P.Point, up: V.Vector, fwdLen: real, upLen: real)
    requires fwdLen != 0.0 && upLen != 0.0 && P.W(from) == 1.0
    ensures MulPoint(View(from, to, up, fwdLen, upLen), from) == P.Origin()
  {
    var o := Orientation(Forward(from, to, fwdLen), V.Normalize(up, upLen));
    var tr := Translation(-P.X(from), -P.Y(from), -P.Z(from));
    MulTupleCompose(o, tr, from.data);
    assert MulTuple(tr, from.data) == T.Tuple(0.0, 0.0, 0.0, 1.0);
  }

  /** For true lengths, the view transform turns the direction the eye
      looks in into -z. */
  lemma {:induction false} ViewLooksDownZ(from: P.Point, to: P.Point, up: V.Vector, fwdLen: real, upLen: real)
    requires fwdLen != 0.0 && upLen != 0.0 && P.W(from) == 1.0 && P.W(to) == 1.0
    requires V.IsLength(P.Sub(to, from), fwdLen)
    ensures MulVector(View(from, to, up, fwdLen, upLen), Forward(from, to, fwdLen)) == V.New(0.0, 0.0, -1.0)
  {
    var f := Forward(from, to, fwdLen);
    var upn := V.Normalize(up, upLen);
    var o := Orientation(f, upn);
    var tr := Translation(-P.X(from), -P.Y(from), -P.Z(from));
    V.NormalizeUnit(P.Sub(to, from), fwdLen);
    assert V.W(f) == 0.0;
    OrientationForward(f, upn);
    MulTupleCompose(o, tr, f.data);
    assert MulTuple(tr, f.data) == f.data;
  }

  /** The orientation turns a unit forward vector into -z. */
  lemma {:induction false} OrientationForward(f: V.Vector, upn: V.Vector)
    requires V.W(f) == 0.0 && V.LenSquared(f) == 1.0
    ensures MulTuple(Orientation(f, upn), f.data) == T.Tuple(0.0, 0.0, -1.0, 0.0)
  {
    var left := V.Cross(f, upn);
    V.CrossLaws(f, upn);
    V.CrossLaws(left, f);
    assert V.Dot(left, f) == 0.0;
    assert V.Dot(V.Cross(left, f), f) == 0.0;
  }
}
