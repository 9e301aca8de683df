/** The transformation cases of the source's unit tests
    (src/maths/matrix_test.rs), each a separate lemma. Each case names the
    matrix and the tuple it acts on, states the general law for them, and
    reads the expected coordinates off it. A quarter turn is the angle with
    cosine 0 and sine 1; half of it has cosine and sine both equal to an `h`
    with `h * h == 1/2`. Constants that feed a matrix product (`f == 5.0`,
    `id == M.Identity()`, and the like) are parameters fixed by `requires`
    because written as literals the verifier unfolds the product on them and
    runs out of resources. */
module TransformExamples {
  import opened Wrappers
  import T = Tuples
  import V = Vectors
  import P = Points
  import M = Matrix4x4
  import TR = Transforms

  /** Multiplying by a translation matrix moves a point. */
  lemma TranslationExample()
    ensures TR.MulPoint(TR.Translation(5.0, -3.0, 2.0), P.New(-3.0, 4.0, 5.0)).data == T.Tuple(2.0, 1.0, 7.0, 1.0)
  {
  }

  /** The inverse of the translation moves the point the other way. */
  lemma TranslationInverseExample()
    ensures M.Inverse(TR.Translation(5.0, -3.0, 2.0)) == Some(TR.Translation(-5.0, 3.0, -2.0))
  {
    TR.TranslationInverse(5.0, -3.0, 2.0);
  }

  lemma TranslationBackExample()
    ensures TR.MulPoint(TR.Translation(-5.0, 3.0, -2.0), P.New(-3.0, 4.0, 5.0)).data == T.Tuple(-8.0, 7.0, 3.0, 1.0)
  {
  }

  /** Translation does not affect vectors. */
  lemma TranslationVectorExample()
    ensures TR.MulVector(TR.Translation(5.0, -3.0, 2.0), V.New(-3.0, 4.0, 5.0)).data == T.Tuple(-3.0, 4.0, 5.0, 0.0)
  {
  }

  /** A scaling matrix applied to a point and to a vector. */
  lemma ScalingPointExample(x: real, y: real, z: real)
    requires x == 2.0 && y == 3.0 && z == 4.0
    ensures TR.MulPoint(TR.Scaling(x, y, z), P.New(-4.0, 6.0, 8.0)).data == T.Tuple(-8.0, 18.0, 32.0, 1.0)
  {
  }

  lemma ScalingVectorExample(x: real, y: real, z: real)
    requires x == 2.0 && y == 3.0 && z == 4.0
    ensures TR.MulVector(TR.Scaling(x, y, z), V.New(-4.0, 6.0, 8.0)).data == T.Tuple(-8.0, 18.0, 32.0, 0.0)
  {
  }

  /** The inverse of a scaling scales by the reciprocals. */
  lemma ScalingInverseExample(x: real, y: real, z: real)
    requires x == 2.0 && y == 3.0 && z == 4.0
    ensures M.Inverse(TR.Scaling(x, y, z)) == Some(TR.Scaling(0.5, 1.0 / 3.0, 0.25))
  {
    assert 1.0 / x == 0.5 && 1.0 / y == 1.0 / 3.0 && 1.0 / z == 0.25;
    TR.ScalingRegular(x, y, z);
  }

  lemma ScalingBackExample(x: real, y: real, z: real)
    requires x == 0.5 && y == 1.0 / 3.0 && z == 0.25
    ensures TR.MulVector(TR.Scaling(x, y, z), V.New(-4.0, 6.0, 8.0)).data == T.Tuple(-2.0, 2.0, 2.0, 0.0)
  {
  }

  /** Reflection is scaling by a negative factor. */
  lemma ReflectionExample(x: real, y: real, z: real)
    requires x == -1.0 && y == 1.0 && z == 1.0
    ensures TR.MulPoint(TR.Scaling(x, y, z), P.New(2.0, 3.0, 4.0)).data == T.Tuple(-2.0, 3.0, 4.0, 1.0)
  {
  }

  /** A quarter turn about x takes (0, 1, 0) to (0, 0, 1). */
  lemma RotationXQuarterExample(c: real, s: real)
    requires c == 0.0 && s == 1.0
    ensures TR.MulPoint(TR.RotationX(c, s), P.New(0.0, 1.0, 0.0)).data == T.Tuple(0.0, 0.0, 1.0, 1.0)
  {
  }

  lemma RotationXHalfQuarterExample(h: real)
    ensures TR.MulPoint(TR.RotationX(h, h), P.New(0.0, 1.0, 0.0)).data == T.Tuple(0.0, h, h, 1.0)
  {
  }

  /** The inverse of an x rotation turns the opposite way. */
  lemma RotationXInverseExample(h: real, k: real)
    requires k == h * h && k + k == 1.0
    ensures M.Inverse(TR.RotationX(h, h)) == Some(TR.RotationX(h, -h))
  {
    assert TR.OnUnitCircle(h, h);
    TR.RotationXInverse(h, h);
  }

  lemma RotationXBackExample(h: real)
    ensures TR.MulPoint(TR.RotationX(h, -h), P.New(0.0, 1.0, 0.0)).data == T.Tuple(0.0, h, -h, 1.0)
  {
  }

  /** A quarter turn about y takes (0, 0, 1) to (1, 0, 0). */
  lemma RotationYQuarterExample(c: real, s: real)
    requires c == 0.0 && s == 1.0
    ensures TR.MulPoint(TR.RotationY(c, s), P.New(0.0, 0.0, 1.0)).data == T.Tuple(1.0, 0.0, 0.0, 1.0)
  {
  }

  lemma RotationYHalfQuarterExample(h: real)
    ensures TR.MulPoint(TR.RotationY(h, h), P.New(0.0, 0.0, 1.0)).data == T.Tuple(h, 0.0, h, 1.0)
  {
  }

  /** A quarter turn about z takes (0, 1, 0) to (-1, 0, 0). */
  lemma RotationZQuarterExample(c: real, s: real)
    requires c == 0.0 && s == 1.0
    ensures TR.MulPoint(TR.RotationZ(c, s), P.New(0.0, 1.0, 0.0)).data == T.Tuple(-1.0, 0.0, 0.0, 1.0)
  {
  }

  lemma RotationZHalfQuarterExample(h: real)
    ensures TR.MulPoint(TR.RotationZ(h, h), P.New(0.0, 1.0, 0.0)).data == T.Tuple(-h, h, 0.0, 1.0)
  {
  }

  /** Shearing x in proportion to y. */
  lemma ShearingExample()
    ensures TR.MulPoint(TR.Shearing(1.0, 0.0, 0.0, 0.0, 0.0, 0.0), P.New(2.0, 3.0, 4.0)).data == T.Tuple(5.0, 3.0, 4.0, 1.0)
  {
    TR.ShearingMoves(1.0, 0.0, 0.0, 0.0, 0.0, 0.0, P.New(2.0, 3.0, 4.0).data);
  }

  /** The three transformations of the sequence test, applied one at a
      time to (1, 0, 1): a quarter turn about x, scaling by `f == 5`, and a
      translation by (10, 5, 7). */
  lemma SequenceRotateExample(c: real, s: real)
    requires c == 0.0 && s == 1.0
    ensures TR.MulTuple(TR.RotationX(c, s), T.Tuple(1.0, 0.0, 1.0, 1.0)) == T.Tuple(1.0, -1.0, 0.0, 1.0)
  {
  }

  lemma SequenceScaleExample(f: real)
    requires f == 5.0
    ensures TR.MulTuple(TR.Scaling(f, f, f), T.Tuple(1.0, -1.0, 0.0, 1.0)) == T.Tuple(5.0, -5.0, 0.0, 1.0)
  {
  }

  lemma SequenceTranslateExample()
    ensures TR.MulTuple(TR.Translation(10.0, 5.0, 7.0), T.Tuple(5.0, -5.0, 0.0, 1.0)) == T.Tuple(15.0, 0.0, 7.0, 1.0)
  {
  }

  /** The chained product `C * B * A` applies A first, so it takes (1, 0, 1)
      where the sequence does. */
  lemma {:induction false} ChainExample(c: real, s: real, f: real)
    requires c == 0.0 && s == 1.0 && f == 5.0
    ensures TR.MulTuple(M.Mul(M.Mul(TR.Translation(10.0, 5.0, 7.0), TR.Scaling(f, f, f)), TR.RotationX(c, s)),
                        T.Tuple(1.0, 0.0, 1.0, 1.0)) == T.Tuple(15.0, 0.0, 7.0, 1.0)
  {
    var tr, sc, rx := TR.Translation(10.0, 5.0, 7.0), TR.Scaling(f, f, f), TR.RotationX(c, s);
    var p := T.Tuple(1.0, 0.0, 1.0, 1.0);
    TR.MulTupleCompose(M.Mul(tr, sc), rx, p);
    TR.MulTupleCompose(tr, sc, TR.MulTuple(rx, p));
    SequenceRotateExample(c, s);
    SequenceScaleExample(f);
    SequenceTranslateExample();
  }

  /** The fluent chain of the source's tests, translate by (10, 5, 7), then
      scale by 5, then a quarter turn about x, makes the rotation act last,
      so (1, 0, 1) lands on (55, -40, 25) and not on the (15, 0, 7) of
      `C * B * A`. */
  lemma {:induction false} FluentChainExample(id: M.Matrix, c: real, s: real, f: real, x: real, y: real, z: real)
    requires id == M.Identity()
    requires c == 0.0 && s == 1.0 && f == 5.0 && x == 10.0 && y == 5.0 && z == 7.0
    ensures TR.MulTuple(TR.RotateX(TR.Scale(TR.Translate(id, x, y, z), f, f, f), c, s),
                        T.Tuple(1.0, 0.0, 1.0, 1.0)) == T.Tuple(55.0, -40.0, 25.0, 1.0)
  {
    var p := T.Tuple(1.0, 0.0, 1.0, 1.0);
    TR.MulTupleIdentity(p);
    FluentTranslateStep(id, x, y, z, p);
    FluentTail(TR.Translate(id, x, y, z), c, s, f, p);
  }

  /** Scaling by 5 and then the quarter turn, after the translation has
      taken (1, 0, 1) to (11, 5, 8). */
  lemma {:induction false} FluentTail(m: M.Matrix, c: real, s: real, f: real, p: T.Tuple)
    requires c == 0.0 && s == 1.0 && f == 5.0
    requires TR.MulTuple(m, p) == T.Tuple(11.0, 5.0, 8.0, 1.0)
    ensures TR.MulTuple(TR.RotateX(TR.Scale(m, f, f, f), c, s), p) == T.Tuple(55.0, -40.0, 25.0, 1.0)
  {
    FluentScaleStep(m, f, p);
    FluentRotateStep(TR.Scale(m, f, f, f), c, s, p);
  }

  lemma FluentTranslateStep(m: M.Matrix, x: real, y: real, z: real, p: T.Tuple)
    requires x == 10.0 && y == 5.0 && z == 7.0
    requires TR.MulTuple(m, p) == T.Tuple(1.0, 0.0, 1.0, 1.0)
    ensures TR.MulTuple(TR.Translate(m, x, y, z), p) == T.Tuple(11.0, 5.0, 8.0, 1.0)
  {
  }

  lemma FluentScaleStep(m: M.Matrix, f: real, p: T.Tuple)
    requires f == 5.0 && TR.MulTuple(m, p) == T.Tuple(11.0, 5.0, 8.0, 1.0)
    ensures TR.MulTuple(TR.Scale(m, f, f, f), p) == T.Tuple(55.0, 25.0, 40.0, 1.0)
  {
  }

  lemma FluentRotateStep(m: M.Matrix, c: real, s: real, p: T.Tuple)
    requires c == 0.0 && s == 1.0 && TR.MulTuple(m, p) == T.Tuple(55.0, 25.0, 40.0, 1.0)
    ensures TR.MulTuple(TR.RotateX(m, c, s), p) == T.Tuple(55.0, -40.0, 25.0, 1.0)
  {
  }

  /** The fluent chain the chained-transform test evidently means: since
      each fluent call acts after the ones before it, writing the quarter
      turn first, then the scaling, then the translation takes (1, 0, 1) to
      the (15, 0, 7) of `C * B * A`. */
  lemma {:induction false} ReversedFluentChainExample(id: M.Matrix, c: real, s: real, f: real, x: real, y: real, z: real)
    requires id == M.Identity()
    requires c == 0.0 && s == 1.0 && f == 5.0 && x == 10.0 && y == 5.0 && z == 7.0
    ensures TR.MulTuple(TR.Translate(TR.Scale(TR.RotateX(id, c, s), f, f, f), x, y, z),
                        T.Tuple(1.0, 0.0, 1.0, 1.0)) == T.Tuple(15.0, 0.0, 7.0, 1.0)
  {
    var p := T.Tuple(1.0, 0.0, 1.0, 1.0);
    TR.MulTupleIdentity(p);
    ReversedRotateStep(id, c, s, p);
    ReversedScaleStep(TR.RotateX(id, c, s), f, p);
    ReversedTranslateStep(TR.Scale(TR.RotateX(id, c, s), f, f, f), x, y, z, p);
  }

  lemma ReversedRotateStep(m: M.Matrix, c: real, s: real, p: T.Tuple)
    requires c == 0.0 && s == 1.0 && TR.MulTuple(m, p) == T.Tuple(1.0, 0.0, 1.0, 1.0)
    ensures TR.MulTuple(TR.RotateX(m, c, s), p) == T.Tuple(1.0, -1.0, 0.0, 1.0)
  {
  }

  lemma ReversedScaleStep(m: M.Matrix, f: real, p: T.Tuple)
    requires f == 5.0 && TR.MulTuple(m, p) == T.Tuple(1.0, -1.0, 0.0, 1.0)
    ensures TR.MulTuple(TR.Scale(m, f, f, f), p) == T.Tuple(5.0, -5.0, 0.0, 1.0)
  {
  }

  lemma ReversedTranslateStep(m: M.Matrix, x: real, y: real, z: real, p: T.Tuple)
    requires x == 10.0 && y == 5.0 && z == 7.0
    requires TR.MulTuple(m, p) == T.Tuple(5.0, -5.0, 0.0, 1.0)
    ensures TR.MulTuple(TR.Translate(m, x, y, z), p) == T.Tuple(15.0, 0.0, 7.0, 1.0)
  {
  }

  /** Looking from the origin down -z with y up is the default orientation:
      the view transform is the identity. */
  lemma {:induction false} ViewDefaultExample(from: P.Point, to: P.Point, dz: real)
    requires dz == -1.0 && from == P.Origin() && to == P.New(0.0, 0.0, dz)
    ensures TR.View(from, to, V.Up(), 1.0, 1.0) == M.Identity()
  {
    ViewDownZ(from, to, 1.0, dz);
    NoTranslation(-P.X(from), -P.Y(from), -P.Z(from));
  }

  /** Looking down +z turns x and z around: the view transform is the
      scaling by (-1, 1, -1). */
  lemma {:induction false} ViewPositiveZExample(from: P.Point, to: P.Point, one: real)
    requires one == 1.0 && from == P.Origin() && to == P.New(0.0, 0.0, one)
    ensures TR.View(from, to, V.Up(), one, 1.0) == TR.Scaling(-one, 1.0, -one)
  {
    OrientationOnZ(one);
    ViewOnZ(from, to, one, one);
    NoTranslation(-P.X(from), -P.Y(from), -P.Z(from));
    M.IdentityUnit(TR.Scaling(-one, 1.0, -one));
  }

  /** An eye at (0, 0, 8) looking at the origin only moves the world: the
      view transform is the translation by (0, 0, -8). */
  lemma {:induction false} ViewMovesWorldExample(from: P.Point, to: P.Point, eight: real, d: real)
    requires eight == 8.0 && d == -1.0 && from == P.New(0.0, 0.0, eight) && to == P.Origin()
    ensures TR.View(from, to, V.Up(), eight, 1.0) == TR.Translation(0.0, 0.0, -eight)
  {
    ViewDownZ(from, to, eight, d);
  }

  /** An eye on the z axis looking down -z with y up: the view is only the
      translation to the eye. */
  lemma {:induction false} ViewDownZ(from: P.Point, to: P.Point, len: real, d: real)
    requires len != 0.0 && d == -1.0 && P.X(from) == P.X(to) == 0.0 && P.Y(from) == P.Y(to) == 0.0
    requires P.W(from) == P.W(to) == 1.0 && P.Z(to) - P.Z(from) == d * len
    ensures TR.View(from, to, V.Up(), len, 1.0) == TR.Translation(-P.X(from), -P.Y(from), -P.Z(from))
  {
    ViewOnZ(from, to, len, d);
    FlipIdentity(d);
    M.IdentityUnit(TR.Translation(-P.X(from), -P.Y(from), -P.Z(from)));
  }

  /** An eye on the z axis looking along it toward the side of sign `d`,
      with y up: the view is the orientation of the unit forward vector
      after the translation to the eye. */
  lemma {:induction false} ViewOnZ(from: P.Point, to: P.Point, len: real, d: real)
    requires len != 0.0 && P.X(from) == P.X(to) == 0.0 && P.Y(from) == P.Y(to) == 0.0
    requires P.W(from) == P.W(to) == 1.0 && P.Z(to) - P.Z(from) == d * len
    ensures TR.View(from, to, V.Up(), len, 1.0)
         == M.Mul(TR.Orientation(V.New(0.0, 0.0, d), V.Up()), TR.Translation(-P.X(from), -P.Y(from), -P.Z(from)))
  {
    ForwardOnZ(from, to, len, d);
    UpNormalized();
    ViewWith(from, to, len, V.New(0.0, 0.0, d), V.Up());
  }

  /** `View` with an up vector of length 1, for known forward and up unit
      vectors. */
  lemma ViewWith(from: P.Point, to: P.Point, len: real, f: V.Vector, upn: V.Vector)
    requires len != 0.0 && TR.Forward(from, to, len) == f && V.Normalize(V.Up(), 1.0) == upn
    ensures TR.View(from, to, V.Up(), len, 1.0) == M.Mul(TR.Orientation(f, upn), TR.Translation(-P.X(from), -P.Y(from), -P.Z(from)))
  {
  }

  /** An eye looking along the z axis, toward the side of sign `d`. */
  lemma ForwardOnZ(from: P.Point, to: P.Point, len: real, d: real)
    requires len != 0.0 && P.X(from) == P.X(to) == 0.0 && P.Y(from) == P.Y(to) == 0.0
    requires P.W(from) == P.W(to) == 1.0 && P.Z(to) - P.Z(from) == d * len
    ensures TR.Forward(from, to, len) == V.New(0.0, 0.0, d)
  {
    assert P.Sub(to, from).data == T.Tuple(0.0, 0.0, d * len, 0.0);
    assert (d * len) / len == d;
  }

  /** The up vector is already a unit vector. */
  lemma UpNormalized()
    ensures V.Normalize(V.Up(), 1.0) == V.Up()
  {
  }

  /** With the eye along z toward the side of sign `d` and y up, the
      orientation keeps y and flips x and z when looking down +z. */
  lemma OrientationOnZ(d: real)
    requires d * d == 1.0
    ensures TR.Orientation(V.New(0.0, 0.0, d), V.Up())
         == M.New(-d, 0.0, 0.0, 0.0, 0.0, 1.0, 0.0, 0.0, 0.0, 0.0, -d, 0.0, 0.0, 0.0, 0.0, 1.0)
  {
    var left := V.Cross(V.New(0.0, 0.0, d), V.Up());
    assert left.data == T.Tuple(-d, 0.0, 0.0, 0.0);
    var trueUp := V.Cross(left, V.New(0.0, 0.0, d));
    assert trueUp.data == T.Tuple(0.0, d * d, 0.0, 0.0);
  }

  /** Translating by nothing is the identity. */
  lemma NoTranslation(x: real, y: real, z: real)
    requires x == 0.0 && y == 0.0 && z == 0.0
    ensures TR.Translation(x, y, z) == M.Identity()
  {
  }

  /** Looking down -z with y up, the orientation is the identity. */
  lemma FlipIdentity(d: real)
    requires d == -1.0
    ensures TR.Orientation(V.New(0.0, 0.0, d), V.Up()) == M.Identity()
  {
    OrientationOnZ(d);
  }
}
