/** Rays (src/primitives/ray.rs): an origin point and a direction vector,
    moved by matrices and intersected with the unit sphere. The square root
    of the discriminant is a parameter `sqrt`; where a property needs it,
    `SqrtOf` says that its value is the non-negative root. */
module Rays {
  import opened Wrappers
  import T = Tuples
  import V = Vectors
  import P = Points
  import M = Matrix4x4
  import TR = Transforms
  import S = Shapes
  import I = Intersections

  datatype Ray = Ray(origin: P.Point, direction: V.Vector)

  /** `Ray::position`: the point reached after travelling `t` times the
      direction from the origin. */
  function Position(r: Ray, t: real): (p: P.Point)
    ensures t == 0.0 ==> p == r.origin
    ensures P.Sub(p, r.origin) == V.Scale(r.direction, t)
  {
    P.AddVector(r.origin, V.Scale(r.direction, t))
  }

  /** Travelling `t1` and then `t2` from there is travelling `t1 + t2`. */
  lemma PositionAdditive(r: Ray, t1: real, t2: real)
    ensures Position(Ray(Position(r, t1), r.direction), t2) == Position(r, t1 + t2)
  {
  }

  /** The source's test: from (2, 3, 4) along +x, the positions at 0, 1, -1
      and 2.5. */
  lemma PositionExample(r: Ray)
    requires r == Ray(P.New(2.0, 3.0, 4.0), V.New(1.0, 0.0, 0.0))
    ensures Position(r, 0.0) == P.New(2.0, 3.0, 4.0)
    ensures Position(r, 1.0).data == T.Tuple(3.0, 3.0, 4.0, 1.0)
    ensures Position(r, -1.0).data == T.Tuple(1.0, 3.0, 4.0, 1.0)
    ensures Position(r, 2.5).data == T.Tuple(4.5, 3.0, 4.0, 1.0)
  {
    PositionData(r, 1.0);
    PositionData(r, -1.0);
    PositionData(r, 2.5);
  }

  /** `Ray::transform`: origin and direction each multiplied by `m`. */
  function Transform(r: Ray, m: M.Matrix): (r2: Ray)
    ensures TR.IsAffine(m) && P.W(r.origin) == 1.0 ==> P.W(r2.origin) == 1.0
    ensures TR.IsAffine(m) && V.W(r.direction) == 0.0 ==> V.W(r2.direction) == 0.0
  {
    Ray(TR.MulPoint(m, r.origin), TR.MulVector(m, r.direction))
  }

  /** One row of a matrix is linear: against `a + t * b` it gives the row
      against `a` plus `t` times the row against `b`. */
  lemma RowLinear(m: M.Matrix, row: nat, a: T.Tuple, b: T.Tuple, t: real)
    requires row < 4
    ensures TR.RowTimes(m, row, Along(a, b, t))
         == TR.RowTimes(m, row, a) + TR.RowTimes(m, row, b) * t
  {
    Dot4Linear(M.Get(m, row, 0), M.Get(m, row, 1), M.Get(m, row, 2), M.Get(m, row, 3), a, b, t);
  }

  lemma Dot4Linear(m0: real, m1: real, m2: real, m3: real, a: T.Tuple, b: T.Tuple, t: real)
    ensures M.Dot4(m0, m1, m2, m3, a.x + b.x * t, a.y + b.y * t, a.z + b.z * t, a.w + b.w * t)
         == M.Dot4(m0, m1, m2, m3, a.x, a.y, a.z, a.w) + M.Dot4(m0, m1, m2, m3, b.x, b.y, b.z, b.w) * t
  {
  }

  /** The position at `t`, by components. */
  lemma PositionData(r: Ray, t: real)
    ensures Position(r, t).data == Along(r.origin.data, r.direction.data, t)
  {
  }

  /** Transforming a ray maps its positions: the transformed ray at `t` is
      the transformed point of the original ray at `t`. */
  lemma {:induction false} TransformPosition(r: Ray, m: M.Matrix, t: real)
    ensures Position(Transform(r, m), t) == TR.MulPoint(m, Position(r, t))
  {
    var a, b := r.origin.data, r.direction.data;
    assert Transform(r, m).origin.data == TR.MulTuple(m, a);
    assert Transform(r, m).direction.data == TR.MulTuple(m, b);
    PositionData(r, t);
    PositionData(Transform(r, m), t);
    MulTupleLinear(m, a, b, t);
  }

  /** `a + t b`, componentwise. */
  function Along(a: T.Tuple, b: T.Tuple, t: real): T.Tuple
  {
    T.Tuple(a.x + b.x * t, a.y + b.y * t, a.z + b.z * t, a.w + b.w * t)
  }

  /** A matrix maps `a + t b` to `m a + t (m b)`. */
  lemma {:induction false} MulTupleLinear(m: M.Matrix, a: T.Tuple, b: T.Tuple, t: real)
    ensures TR.MulTuple(m, Along(a, b, t)) == Along(TR.MulTuple(m, a), TR.MulTuple(m, b), t)
  {
    RowLinear(m, 0, a, b, t);
    RowLinear(m, 1, a, b, t);
    RowLinear(m, 2, a, b, t);
    RowLinear(m, 3, a, b, t);
  }

  /** Transforming by an invertible matrix and then by its inverse gives the
      ray back. */
  lemma {:induction false} TransformInverse(r: Ray, m: M.Matrix)
    requires M.IsInvertible(m)
    ensures Transform(Transform(r, m), M.InverseOf(m)) == r
  {
    TR.MulTupleInverse(m, r.origin.data);
    TR.MulTupleInverse(m, r.direction.data);
  }

  // ---------------------------------------------------------------------
  // The sphere quadratic

  /** The vector from the sphere's centre, the origin, to the ray's
      origin. */
  function SphereToRay(r: Ray): V.Vector
  {
    P.Sub(r.origin, P.New(0.0, 0.0, 0.0))
  }

  /** The coefficients of `a t^2 + b t + c = 0`, whose roots are where the
      ray meets the unit sphere, and its discriminant. */
  function CoefA(r: Ray): real { V.Dot(r.direction, r.direction) }
  function CoefB(r: Ray): real { 2.0 * V.Dot(r.direction, SphereToRay(r)) }
  function CoefC(r: Ray): real { V.Dot(SphereToRay(r), SphereToRay(r)) - 1.0 }

  function Discriminant(r: Ray): real
  {
    CoefB(r) * CoefB(r) - 4.0 * CoefA(r) * CoefC(r)
  }

  /** `a` is a sum of squares: never negative, and zero only for the zero
      direction, which also makes `b` zero. */
  lemma CoefANonNegative(r: Ray)
    ensures CoefA(r) >= 0.0
    ensures CoefA(r) == 0.0 ==> r.direction.data == T.Zero && CoefB(r) == 0.0
  {
    var d := r.direction.data;
    assert CoefA(r) == d.x * d.x + d.y * d.y + d.z * d.z + d.w * d.w;
    if CoefA(r) == 0.0 {
      SquaresZero(d.x, d.y, d.z, d.w);
    }
  }

  lemma SquaresZero(x: real, y: real, z: real, w: real)
    requires x * x + y * y + z * z + w * w == 0.0
    ensures x == 0.0 && y == 0.0 && z == 0.0 && w == 0.0
  {
    SquareSign(x, x * x);
    SquareSign(y, y * y);
    SquareSign(z, z * z);
    SquareSign(w, w * w);
  }

  /** A square is non-negative, and positive for a non-zero number. */
  lemma SquareSign(x: real, k: real)
    requires k == x * x
    ensures k >= 0.0
    ensures x != 0.0 ==> k > 0.0
  {
    if x != 0.0 {
      V.SquareNonZero(x, k);
    }
  }

  /** The two roots of the quadratic, smaller-looking first. */
  function Root1(r: Ray, q: real): real
    requires CoefA(r) != 0.0
  {
    (-CoefB(r) - q) / (2.0 * CoefA(r))
  }

  function Root2(r: Ray, q: real): real
    requires CoefA(r) != 0.0
  {
    (-CoefB(r) + q) / (2.0 * CoefA(r))
  }

  /** The quadratic part of `Ray::intersects`, on a ray already in the
      sphere's object space: no intersections for a negative discriminant,
      otherwise the two roots, both with the given shape. A zero direction
      makes `a` zero and the division meaningless (IEEE gives NaN): `None`. */
  function IntersectObjectSpace(r2: Ray, s: S.Shape, sqrt: real -> real): (xs: Option<seq<I.Intersection>>)
    ensures xs.None? <==> CoefA(r2) == 0.0
    ensures xs.Some? ==> (|xs.value| == 0 <==> Discriminant(r2) < 0.0)
    ensures xs.Some? ==> |xs.value| == 0 || |xs.value| == 2
    ensures xs.Some? ==> forall k :: 0 <= k < |xs.value| ==> xs.value[k].obj == s
    ensures xs.Some? && |xs.value| == 2 ==>
              xs.value[0].t == Root1(r2, sqrt(Discriminant(r2))) &&
              xs.value[1].t == Root2(r2, sqrt(Discriminant(r2)))
  {
    CoefANonNegative(r2);
    var disc := Discriminant(r2);
    if disc < 0.0 then Some([])
    else if CoefA(r2) == 0.0 then None
    else
      var q := sqrt(disc);
      Some([I.New(Root1(r2, q), s), I.New(Root2(r2, q), s)])
  }

  /** `Ray::intersects`: the ray is carried into the sphere's object space
      by the inverse transform; `unwrap` panics when there is none. */
  function Intersects(r: Ray, s: S.Shape, sqrt: real -> real): (xs: Option<seq<I.Intersection>>)
    ensures !M.IsInvertible(S.Transformation(s)) ==> xs.None?
    ensures M.IsInvertible(S.Transformation(s)) ==>
              (xs.None? <==> CoefA(Transform(r, M.InverseOf(S.Transformation(s)))) == 0.0)
  {
    match M.Inverse(S.Transformation(s))
    case None => None
    case Some(inv) => IntersectObjectSpace(Transform(r, inv), s, sqrt)
  }

  /** `q` is the non-negative square root of `x`. */
  predicate SqrtOf(sqrt: real -> real, x: real)
  {
    sqrt(x) >= 0.0 && sqrt(x) * sqrt(x) == x
  }

  /** With a non-negative root, the intersections come in ascending order. */
  lemma {:induction false} RootsOrdered(r2: Ray, s: S.Shape, sqrt: real -> real)
    requires sqrt(Discriminant(r2)) >= 0.0
    requires IntersectObjectSpace(r2, s, sqrt).Some? && |IntersectObjectSpace(r2, s, sqrt).value| == 2
    ensures IntersectObjectSpace(r2, s, sqrt).value[0].t <= IntersectObjectSpace(r2, s, sqrt).value[1].t
  {
    CoefANonNegative(r2);
    var q := sqrt(Discriminant(r2));
    DivideOrdered(-CoefB(r2) - q, -CoefB(r2) + q, 2.0 * CoefA(r2));
  }

  lemma DivideOrdered(x: real, y: real, d: real)
    requires x <= y && d > 0.0
    ensures x / d <= y / d
  {
  }

  /** Both roots solve the quadratic. */
  lemma {:induction false} RootsSolve(r2: Ray, sqrt: real -> real)
    requires Discriminant(r2) >= 0.0 && CoefA(r2) != 0.0
    requires SqrtOf(sqrt, Discriminant(r2))
    ensures IsRoot(r2, Root1(r2, sqrt(Discriminant(r2))))
    ensures IsRoot(r2, Root2(r2, sqrt(Discriminant(r2))))
  {
    var a, b, c, q := CoefA(r2), CoefB(r2), CoefC(r2), sqrt(Discriminant(r2));
    QuadraticRoot(a, b, c, q, -q, Root1(r2, q));
    QuadraticRoot(a, b, c, q, q, Root2(r2, q));
  }

  /** Given the true square root of the discriminant, every time
      `intersects` returns solves the sphere's quadratic. */
  lemma {:induction false} ReturnedSolve(r2: Ray, s: S.Shape, sqrt: real -> real)
    requires SqrtOf(sqrt, Discriminant(r2))
    requires IntersectObjectSpace(r2, s, sqrt).Some?
    ensures forall k :: 0 <= k < |IntersectObjectSpace(r2, s, sqrt).value| ==>
              IsRoot(r2, IntersectObjectSpace(r2, s, sqrt).value[k].t)
  {
    var xs := IntersectObjectSpace(r2, s, sqrt);
    if |xs.value| == 2 {
      RootsSolve(r2, sqrt);
    }
  }

  predicate IsRoot(r: Ray, t: real)
  {
    CoefA(r) * t * t + CoefB(r) * t + CoefC(r) == 0.0
  }

  /** `t = (-b + e) / 2a` with `e * e == b^2 - 4ac` solves the quadratic. */
  lemma QuadraticRoot(a: real, b: real, c: real, q: real, e: real, t: real)
    requires a != 0.0 && q * q == b * b - 4.0 * a * c && (e == q || e == -q)
    requires t == (-b + e) / (2.0 * a)
    ensures a * t * t + b * t + c == 0.0
  {
    var u := 2.0 * a * t;
    assert u == -b + e;
    assert e * e == q * q;
    assert u * u + 2.0 * b * u + 4.0 * a * c == 0.0;
    assert 4.0 * a * (a * t * t + b * t + c) == u * u + 2.0 * b * u + 4.0 * a * c;
    ProductZero(4.0 * a, a * t * t + b * t + c);
  }

  lemma ProductZero(x: real, y: real)
    requires x != 0.0 && x * y == 0.0
    ensures y == 0.0
  {
  }

  /** A root of the quadratic is a point of the unit sphere: the vector
      from the centre to the ray's position there has squared length 1. */
  lemma {:induction false} RootOnUnitSphere(r2: Ray, t: real)
    requires IsRoot(r2, t)
    ensures CoefC(Ray(Position(r2, t), r2.direction)) == 0.0
  {
    QuadraticAtPosition(r2, t);
  }

  /** The quadratic evaluated at `t` is the squared distance of the
      position at `t` from the centre, less 1. */
  lemma {:induction false} QuadraticAtPosition(r: Ray, t: real)
    ensures CoefC(Ray(Position(r, t), r.direction)) == CoefA(r) * t * t + CoefB(r) * t + CoefC(r)
  {
    MovedOrigin(r, t);
    QuadraticByComponents(CoefA(r), CoefB(r), CoefC(r), CoefC(Ray(Position(r, t), r.direction)),
                          SphereToRay(r).data, r.direction.data, t);
  }

  /** The vector from the centre to the position at `t`, by components. */
  lemma MovedOrigin(r: Ray, t: real)
    ensures SphereToRay(Ray(Position(r, t), r.direction)).data
         == T.Tuple(SphereToRay(r).data.x + r.direction.data.x * t,
                    SphereToRay(r).data.y + r.direction.data.y * t,
                    SphereToRay(r).data.z + r.direction.data.z * t,
                    SphereToRay(r).data.w + r.direction.data.w * t)
  {
  }

  /** The expansion of `|o + t d|^2 - 1` in powers of `t`. */
  lemma QuadraticByComponents(a: real, b: real, c: real, ce: real, o: T.Tuple, d: T.Tuple, t: real)
    requires a == d.x * d.x + d.y * d.y + d.z * d.z + d.w * d.w
    requires b == 2.0 * (d.x * o.x + d.y * o.y + d.z * o.z + d.w * o.w)
    requires c == o.x * o.x + o.y * o.y + o.z * o.z + o.w * o.w - 1.0
    requires ce == (o.x + d.x * t) * (o.x + d.x * t) + (o.y + d.y * t) * (o.y + d.y * t)
                 + (o.z + d.z * t) * (o.z + d.z * t) + (o.w + d.w * t) * (o.w + d.w * t) - 1.0
    ensures ce == a * t * t + b * t + c
  {
    SquareExpand(o.x, d.x, t);
    SquareExpand(o.y, d.y, t);
    SquareExpand(o.z, d.z, t);
    SquareExpand(o.w, d.w, t);
  }

  /** `(o + d t)^2 = o^2 + 2 (d o) t + d^2 t^2`. */
  lemma SquareExpand(o: real, d: real, t: real)
    ensures (o + d * t) * (o + d * t) == o * o + 2.0 * (d * o) * t + d * d * t * t
  {
  }

  // ---------------------------------------------------------------------
  // The cases of the source's unit tests. Their coordinates are parameters
  // fixed by `requires` (`oz == -5.0`, `o == 0.0`, `k == 2.0`) because
  // written as literals the verifier unfolds the intersection on them and
  // runs out of resources.

  /** `intersects` once the inverse transform is known. */
  lemma IntersectsVia(r: Ray, s: S.Shape, m: M.Matrix, inv: M.Matrix, sqrt: real -> real)
    requires S.Transformation(s) == m && M.Inverse(m) == Some(inv)
    ensures Intersects(r, s, sqrt) == IntersectObjectSpace(Transform(r, inv), s, sqrt)
  {
  }

  lemma IntersectsByInverse(r: Ray, s: S.Shape, inv: M.Matrix, sqrt: real -> real)
    requires M.Inverse(S.Transformation(s)) == Some(inv)
    ensures Intersects(r, s, sqrt) == IntersectObjectSpace(Transform(r, inv), s, sqrt)
  {
  }

  /** The identity leaves a ray where it is. */
  lemma TransformIdentity(r: Ray, id: M.Matrix)
    requires id == M.Identity()
    ensures Transform(r, id) == r
  {
    TR.MulTupleIdentity(r.origin.data);
    TR.MulTupleIdentity(r.direction.data);
  }

  /** The default sphere needs no change of space. */
  lemma {:induction false} DefaultSphereIntersects(r: Ray, s: S.Shape, sqrt: real -> real)
    requires s == S.Default()
    ensures Intersects(r, s, sqrt) == IntersectObjectSpace(r, s, sqrt)
  {
    S.DefaultInverse();
    IntersectsVia(r, s, M.Identity(), M.Identity(), sqrt);
    TransformIdentity(r, M.Identity());
  }

  /** Along +z from (0, oy, oz): the coefficients are 1, 2 oz and
      oy^2 + oz^2 - 1, and the roots are -oz -+ sqrt(disc) / 2. */
  lemma AlongZ(r: Ray, oy: real, oz: real, s: S.Shape, sqrt: real -> real)
    requires r == Ray(P.New(0.0, oy, oz), V.New(0.0, 0.0, 1.0))
    ensures CoefA(r) == 1.0 && CoefB(r) == 2.0 * oz && CoefC(r) == oy * oy + oz * oz - 1.0
    ensures Discriminant(r) == 4.0 * (1.0 - oy * oy)
    ensures IntersectObjectSpace(r, s, sqrt)
            == if oy * oy > 1.0 then Some([])
               else Some([I.New(-oz - sqrt(4.0 * (1.0 - oy * oy)) / 2.0, s),
                          I.New(-oz + sqrt(4.0 * (1.0 - oy * oy)) / 2.0, s)])
  {
  }

  /** The along-z cases of the source's unit tests, in object space. */
  lemma TwoPointsObject(r: Ray, oy: real, oz: real, s: S.Shape, sqrt: real -> real)
    requires sqrt(4.0) == 2.0 && oz == -5.0 && oy == 0.0
    requires r == Ray(P.New(0.0, oy, oz), V.New(0.0, 0.0, 1.0))
    ensures IntersectObjectSpace(r, s, sqrt) == Some([I.New(4.0, s), I.New(6.0, s)])
  {
    AlongZ(r, oy, oz, s, sqrt);
  }

  lemma TangentObject(r: Ray, oy: real, oz: real, s: S.Shape, sqrt: real -> real)
    requires sqrt(0.0) == 0.0 && oy == 1.0 && oz == -5.0
    requires r == Ray(P.New(0.0, oy, oz), V.New(0.0, 0.0, 1.0))
    ensures IntersectObjectSpace(r, s, sqrt) == Some([I.New(5.0, s), I.New(5.0, s)])
  {
    AlongZ(r, oy, oz, s, sqrt);
  }

  lemma MissObject(r: Ray, oy: real, oz: real, s: S.Shape, sqrt: real -> real)
    requires oy == 2.0 && oz == -5.0
    requires r == Ray(P.New(0.0, oy, oz), V.New(0.0, 0.0, 1.0))
    ensures IntersectObjectSpace(r, s, sqrt) == Some([])
  {
    assert oy * oy > 1.0;
    AlongZ(r, oy, oz, s, sqrt);
  }

  lemma InsideObject(r: Ray, oy: real, oz: real, s: S.Shape, sqrt: real -> real)
    requires sqrt(4.0) == 2.0 && oz == 0.0 && oy == 0.0
    requires r == Ray(P.New(0.0, oy, oz), V.New(0.0, 0.0, 1.0))
    ensures IntersectObjectSpace(r, s, sqrt) == Some([I.New(-1.0, s), I.New(1.0, s)])
  {
    AlongZ(r, oy, oz, s, sqrt);
  }

  lemma BehindObject(r: Ray, oy: real, oz: real, s: S.Shape, sqrt: real -> real)
    requires sqrt(4.0) == 2.0 && oz == 5.0 && oy == 0.0
    requires r == Ray(P.New(0.0, oy, oz), V.New(0.0, 0.0, 1.0))
    ensures IntersectObjectSpace(r, s, sqrt) == Some([I.New(-6.0, s), I.New(-4.0, s)])
  {
    AlongZ(r, oy, oz, s, sqrt);
  }

  /** The same cases through `intersects` on the default sphere: two
      points, a tangent (the same point twice), a miss, a ray from inside
      and a sphere behind the ray. */
  lemma IntersectsExamples(s: S.Shape, sqrt: real -> real, r1: Ray, r2: Ray, r3: Ray, r4: Ray, r5: Ray)
    requires s == S.Default() && sqrt(4.0) == 2.0 && sqrt(0.0) == 0.0
    requires r1 == Ray(P.New(0.0, 0.0, -5.0), V.New(0.0, 0.0, 1.0))
    requires r2 == Ray(P.New(0.0, 1.0, -5.0), V.New(0.0, 0.0, 1.0))
    requires r3 == Ray(P.New(0.0, 2.0, -5.0), V.New(0.0, 0.0, 1.0))
    requires r4 == Ray(P.New(0.0, 0.0, 0.0), V.New(0.0, 0.0, 1.0))
    requires r5 == Ray(P.New(0.0, 0.0, 5.0), V.New(0.0, 0.0, 1.0))
    ensures Intersects(r1, s, sqrt) == Some([I.New(4.0, s), I.New(6.0, s)])
    ensures Intersects(r2, s, sqrt) == Some([I.New(5.0, s), I.New(5.0, s)])
    ensures Intersects(r3, s, sqrt) == Some([])
    ensures Intersects(r4, s, sqrt) == Some([I.New(-1.0, s), I.New(1.0, s)])
    ensures Intersects(r5, s, sqrt) == Some([I.New(-6.0, s), I.New(-4.0, s)])
  {
    TwoPointsObject(r1, 0.0, -5.0, s, sqrt);
    TangentObject(r2, 1.0, -5.0, s, sqrt);
    MissObject(r3, 2.0, -5.0, s, sqrt);
    InsideObject(r4, 0.0, 0.0, s, sqrt);
    BehindObject(r5, 0.0, 5.0, s, sqrt);
    DefaultSphereIntersects(r1, s, sqrt);
    DefaultSphereIntersects(r2, s, sqrt);
    DefaultSphereIntersects(r3, s, sqrt);
    DefaultSphereIntersects(r4, s, sqrt);
    DefaultSphereIntersects(r5, s, sqrt);
  }

  /** Translating a ray moves its origin and keeps its direction. */
  lemma TranslateExample(r: Ray, x: real, y: real, z: real)
    requires r == Ray(P.New(1.0, 2.0, 3.0), V.New(0.0, 1.0, 0.0))
    requires x == 3.0 && y == 4.0 && z == 5.0
    ensures Transform(r, TR.Translation(x, y, z)) == Ray(P.New(4.0, 6.0, 8.0), V.New(0.0, 1.0, 0.0))
  {
    TranslateRay(r, x, y, z);
    assert P.AddVector(r.origin, V.New(x, y, z)) == P.New(4.0, 6.0, 8.0);
  }

  /** A translation moves the origin of a ray and leaves its direction. */
  lemma TranslateRay(r: Ray, x: real, y: real, z: real)
    requires P.W(r.origin) == 1.0 && V.W(r.direction) == 0.0
    ensures Transform(r, TR.Translation(x, y, z)) == Ray(P.AddVector(r.origin, V.New(x, y, z)), r.direction)
  {
    TR.TranslationMoves(x, y, z, r.origin, r.direction);
  }

  /** Scaling a ray scales both its origin and its direction. */
  lemma ScaleExample(r: Ray, m: M.Matrix)
    requires r == Ray(P.New(1.0, 2.0, 3.0), V.New(0.0, 1.0, 0.0))
    requires m == TR.Scaling(2.0, 3.0, 4.0)
    ensures Transform(r, m) == Ray(P.New(2.0, 6.0, 12.0), V.New(0.0, 3.0, 0.0))
  {
  }

  /** A sphere scaled by 2 is met at t = 3 and t = 7 by the ray from
      (0, 0, -5) along +z. */
  lemma ScaledSphereExample(r: Ray, s: S.Shape, k: real, o: real, sqrt: real -> real)
    requires k == 2.0 && o == 0.0 && s == S.FromTransformation(TR.Scaling(k, k, k)) && sqrt(1.0) == 1.0
    requires r == Ray(P.New(o, o, -5.0), V.New(o, o, 1.0))
    ensures Intersects(r, s, sqrt) == Some([I.New(3.0, s), I.New(7.0, s)])
  {
    ScaledInverse(s, k);
    ScaledHits(r, s, k, o, sqrt);
  }

  lemma ScaledHits(r: Ray, s: S.Shape, k: real, o: real, sqrt: real -> real)
    requires k == 2.0 && o == 0.0 && sqrt(1.0) == 1.0
    requires M.Inverse(S.Transformation(s)) == Some(TR.Scaling(1.0 / k, 1.0 / k, 1.0 / k))
    requires r == Ray(P.New(o, o, -5.0), V.New(o, o, 1.0))
    ensures Intersects(r, s, sqrt) == Some([I.New(3.0, s), I.New(7.0, s)])
  {
    IntersectsByInverse(r, s, TR.Scaling(1.0 / k, 1.0 / k, 1.0 / k), sqrt);
    ScaledObject(r, s, k, o, sqrt);
  }

  lemma ScaledInverse(s: S.Shape, k: real)
    requires k == 2.0 && s == S.FromTransformation(TR.Scaling(k, k, k))
    ensures M.Inverse(S.Transformation(s)) == Some(TR.Scaling(1.0 / k, 1.0 / k, 1.0 / k))
  {
    TR.ScalingRegular(k, k, k);
    S.TransformationRoundTrip(TR.Scaling(k, k, k));
  }

  lemma ScaledObject(r: Ray, s: S.Shape, k: real, o: real, sqrt: real -> real)
    requires k == 2.0 && o == 0.0 && sqrt(1.0) == 1.0
    requires r == Ray(P.New(o, o, -5.0), V.New(o, o, 1.0))
    ensures IntersectObjectSpace(Transform(r, TR.Scaling(1.0 / k, 1.0 / k, 1.0 / k)), s, sqrt)
            == Some([I.New(3.0, s), I.New(7.0, s)])
  {
    var h, oz := 1.0 / k, P.Z(r.origin);
    ScaledAlongZ(r, h, o, oz);
    ScaledNumbers(k, h, oz);
    ScaledOnAxis(Ray(P.New(o, o, h * oz), V.New(o, o, h)), o, h * oz, h, s, sqrt);
  }

  /** Scaling by h a ray along +z through the axis. */
  lemma ScaledAlongZ(r: Ray, h: real, o: real, oz: real)
    requires o == 0.0 && r == Ray(P.New(o, o, oz), V.New(o, o, 1.0))
    ensures Transform(r, TR.Scaling(h, h, h)) == Ray(P.New(o, o, h * oz), V.New(o, o, h))
  {
  }

  lemma ScaledNumbers(k: real, h: real, oz: real)
    requires k == 2.0 && h == 1.0 / k && oz == -5.0
    ensures h == 0.5 && h * oz == -2.5
  {
  }

  /** The ray from (0, 0, -2.5) at speed 0.5 along +z meets the unit sphere
      at t = 3 and t = 7. */
  lemma ScaledOnAxis(r: Ray, o: real, oz: real, dz: real, s: S.Shape, sqrt: real -> real)
    requires o == 0.0 && oz == -2.5 && dz == 0.5 && sqrt(1.0) == 1.0
    requires r == Ray(P.New(o, o, oz), V.New(o, o, dz))
    ensures IntersectObjectSpace(r, s, sqrt) == Some([I.New(3.0, s), I.New(7.0, s)])
  {
    ScaledCoefs(r, o, oz, dz);
    ThreeAndSeven(r, s, sqrt);
  }

  /** The quadratic 0.25 t^2 - 2.5 t + 5.25 has roots 3 and 7. */
  lemma ThreeAndSeven(r: Ray, s: S.Shape, sqrt: real -> real)
    requires sqrt(1.0) == 1.0
    requires CoefA(r) == 0.25 && CoefB(r) == -2.5 && CoefC(r) == 5.25
    ensures IntersectObjectSpace(r, s, sqrt) == Some([I.New(3.0, s), I.New(7.0, s)])
  {
    ObjectSpaceRoots(r, s, sqrt, 0.25, -2.5, 5.25, 1.0, 3.0, 7.0);
  }

  /** The coefficients for the ray from (0, 0, -2.5) at speed 0.5 along +z. */
  lemma ScaledCoefs(r: Ray, o: real, oz: real, dz: real)
    requires o == 0.0 && oz == -2.5 && dz == 0.5
    requires r == Ray(P.New(o, o, oz), V.New(o, o, dz))
    ensures CoefA(r) == 0.25 && CoefB(r) == -2.5 && CoefC(r) == 5.25
  {
    OnAxisCoefs(r, o, oz, dz);
    OnAxisNumbers(oz, dz);
  }

  lemma OnAxisNumbers(oz: real, dz: real)
    requires oz == -2.5 && dz == 0.5
    ensures dz * dz == 0.25 && 2.0 * (dz * oz) == -2.5 && oz * oz - 1.0 == 5.25
  {
  }

  /** The coefficients for a ray from (0, 0, oz) moving along the z axis at
      speed dz. */
  lemma OnAxisCoefs(r: Ray, o: real, oz: real, dz: real)
    requires o == 0.0 && r == Ray(P.New(o, o, oz), V.New(o, o, dz))
    ensures CoefA(r) == dz * dz
    ensures CoefB(r) == 2.0 * (dz * oz)
    ensures CoefC(r) == oz * oz - 1.0
  {
  }

  /** The intersections once the coefficients are known. */
  lemma ObjectSpaceRoots(r2: Ray, s: S.Shape, sqrt: real -> real, a: real, b: real, c: real, q: real, t1: real, t2: real)
    requires CoefA(r2) == a && CoefB(r2) == b && CoefC(r2) == c
    requires a > 0.0 && b * b - 4.0 * a * c == q * q && sqrt(b * b - 4.0 * a * c) == q
    requires t1 == (-b - q) / (2.0 * a) && t2 == (-b + q) / (2.0 * a)
    ensures IntersectObjectSpace(r2, s, sqrt) == Some([I.New(t1, s), I.New(t2, s)])
  {
    assert Discriminant(r2) == b * b - 4.0 * a * c;
  }

  /** A sphere scaled by 0.5 is met at t = 4.5 and t = 5.5 by the ray from
      (0, 0, -5) along +z: the inner sphere of the source's default world. */
  lemma HalfSphereExample(r: Ray, s: S.Shape, k: real, o: real, sqrt: real -> real)
    requires k == 0.5 && o == 0.0 && s == S.FromTransformation(TR.Scaling(k, k, k)) && sqrt(16.0) == 4.0
    requires r == Ray(P.New(o, o, -5.0), V.New(o, o, 1.0))
    ensures Intersects(r, s, sqrt) == Some([I.New(4.5, s), I.New(5.5, s)])
  {
    HalfInverse(s, k);
    HalfHits(r, s, k, o, sqrt);
  }

  lemma HalfInverse(s: S.Shape, k: real)
    requires k == 0.5 && s == S.FromTransformation(TR.Scaling(k, k, k))
    ensures M.Inverse(S.Transformation(s)) == Some(TR.Scaling(1.0 / k, 1.0 / k, 1.0 / k))
  {
    TR.ScalingRegular(k, k, k);
    S.TransformationRoundTrip(TR.Scaling(k, k, k));
  }

  lemma HalfHits(r: Ray, s: S.Shape, k: real, o: real, sqrt: real -> real)
    requires k == 0.5 && o == 0.0 && sqrt(16.0) == 4.0
    requires M.Inverse(S.Transformation(s)) == Some(TR.Scaling(1.0 / k, 1.0 / k, 1.0 / k))
    requires r == Ray(P.New(o, o, -5.0), V.New(o, o, 1.0))
    ensures Intersects(r, s, sqrt) == Some([I.New(4.5, s), I.New(5.5, s)])
  {
    IntersectsByInverse(r, s, TR.Scaling(1.0 / k, 1.0 / k, 1.0 / k), sqrt);
    HalfObject(r, s, k, o, sqrt);
  }

  lemma HalfObject(r: Ray, s: S.Shape, k: real, o: real, sqrt: real -> real)
    requires k == 0.5 && o == 0.0 && sqrt(16.0) == 4.0
    requires r == Ray(P.New(o, o, -5.0), V.New(o, o, 1.0))
    ensures IntersectObjectSpace(Transform(r, TR.Scaling(1.0 / k, 1.0 / k, 1.0 / k)), s, sqrt)
            == Some([I.New(4.5, s), I.New(5.5, s)])
  {
    var h, oz := 1.0 / k, P.Z(r.origin);
    ScaledAlongZ(r, h, o, oz);
    HalfNumbers(k, h, oz);
    HalfOnAxis(Ray(P.New(o, o, h * oz), V.New(o, o, h)), o, h * oz, h, s, sqrt);
  }

  lemma HalfNumbers(k: real, h: real, oz: real)
    requires k == 0.5 && h == 1.0 / k && oz == -5.0
    ensures h == 2.0 && h * oz == -10.0
  {
  }

  /** The ray from (0, 0, -10) at speed 2 along +z meets the unit sphere at
      t = 4.5 and t = 5.5. */
  lemma HalfOnAxis(r: Ray, o: real, oz: real, dz: real, s: S.Shape, sqrt: real -> real)
    requires o == 0.0 && oz == -10.0 && dz == 2.0 && sqrt(16.0) == 4.0
    requires r == Ray(P.New(o, o, oz), V.New(o, o, dz))
    ensures IntersectObjectSpace(r, s, sqrt) == Some([I.New(4.5, s), I.New(5.5, s)])
  {
    HalfCoefs(r, o, oz, dz);
    FourAndAHalf(r, s, sqrt);
  }

  /** The quadratic 4 t^2 - 40 t + 99 has roots 4.5 and 5.5. */
  lemma FourAndAHalf(r: Ray, s: S.Shape, sqrt: real -> real)
    requires sqrt(16.0) == 4.0
    requires CoefA(r) == 4.0 && CoefB(r) == -40.0 && CoefC(r) == 99.0
    ensures IntersectObjectSpace(r, s, sqrt) == Some([I.New(4.5, s), I.New(5.5, s)])
  {
    ObjectSpaceRoots(r, s, sqrt, 4.0, -40.0, 99.0, 4.0, 4.5, 5.5);
  }

  /** The coefficients for the ray from (0, 0, -10) at speed 2 along +z. */
  lemma HalfCoefs(r: Ray, o: real, oz: real, dz: real)
    requires o == 0.0 && oz == -10.0 && dz == 2.0
    requires r == Ray(P.New(o, o, oz), V.New(o, o, dz))
    ensures CoefA(r) == 4.0 && CoefB(r) == -40.0 && CoefC(r) == 99.0
  {
    OnAxisCoefs(r, o, oz, dz);
    HalfCoefNumbers(oz, dz);
  }

  lemma HalfCoefNumbers(oz: real, dz: real)
    requires oz == -10.0 && dz == 2.0
    ensures dz * dz == 4.0 && 2.0 * (dz * oz) == -40.0 && oz * oz - 1.0 == 99.0
  {
  }

  /** A sphere translated to (5, 0, 0) is missed by the ray from (0, 0, -5)
      along +z. */
  lemma TranslatedSphereExample(r: Ray, s: S.Shape, x: real, o: real, sqrt: real -> real)
    requires x == 5.0 && o == 0.0 && s == S.FromTransformation(TR.Translation(x, o, o))
    requires r == Ray(P.New(o, o, -5.0), V.New(o, o, 1.0))
    ensures Intersects(r, s, sqrt) == Some([])
  {
    TranslatedInverse(s, x, o);
    TranslatedMiss(r, s, x, o, sqrt);
  }

  lemma TranslatedInverse(s: S.Shape, x: real, o: real)
    requires s == S.FromTransformation(TR.Translation(x, o, o))
    ensures M.Inverse(S.Transformation(s)) == Some(TR.Translation(-x, -o, -o))
  {
    TR.TranslationInverse(x, o, o);
    S.TransformationRoundTrip(TR.Translation(x, o, o));
  }

  lemma TranslatedMiss(r: Ray, s: S.Shape, x: real, o: real, sqrt: real -> real)
    requires x == 5.0 && o == 0.0 && M.Inverse(S.Transformation(s)) == Some(TR.Translation(-x, -o, -o))
    requires r == Ray(P.New(o, o, -5.0), V.New(o, o, 1.0))
    ensures Intersects(r, s, sqrt) == Some([])
  {
    IntersectsByInverse(r, s, TR.Translation(-x, -o, -o), sqrt);
    TranslatedObject(r, s, x, o, sqrt);
  }

  lemma TranslatedObject(r: Ray, s: S.Shape, x: real, o: real, sqrt: real -> real)
    requires x == 5.0 && o == 0.0
    requires r == Ray(P.New(o, o, -5.0), V.New(o, o, 1.0))
    ensures IntersectObjectSpace(Transform(r, TR.Translation(-x, -o, -o)), s, sqrt) == Some([])
  {
    var oz := P.Z(r.origin);
    TranslatedAlongZ(r, x, o, oz);
    FarFromAxis(x, -x);
    OffAxisMiss(Ray(P.New(-x, o, oz), V.New(o, o, 1.0)), -x, o, oz, s, sqrt);
  }

  /** Translating by (-x, 0, 0) a ray along +z through the axis. */
  lemma TranslatedAlongZ(r: Ray, x: real, o: real, oz: real)
    requires o == 0.0 && r == Ray(P.New(o, o, oz), V.New(o, o, 1.0))
    ensures Transform(r, TR.Translation(-x, -o, -o)) == Ray(P.New(-x, o, oz), V.New(o, o, 1.0))
  {
    TR.TranslationMoves(-x, -o, -o, r.origin, r.direction);
  }

  lemma FarFromAxis(x: real, ox: real)
    requires x == 5.0 && ox == -x
    ensures ox * ox > 1.0
  {
  }

  /** A ray along +z at distance |ox| > 1 from the axis misses the unit
      sphere. */
  lemma OffAxisMiss(r: Ray, ox: real, o: real, oz: real, s: S.Shape, sqrt: real -> real)
    requires o == 0.0 && r == Ray(P.New(ox, o, oz), V.New(o, o, 1.0))
    requires ox * ox > 1.0
    ensures IntersectObjectSpace(r, s, sqrt) == Some([])
  {
    assert CoefA(r) == 1.0 && CoefB(r) == 2.0 * oz && CoefC(r) == ox * ox + oz * oz - 1.0;
    assert Discriminant(r) == 4.0 * (1.0 - ox * ox);
  }
}
