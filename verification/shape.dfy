/** Shapes (src/primitives/shape.rs). The only variant is a sphere: the unit
    sphere at the origin, placed in the world by its transformation. */
module Shapes {
  import opened Wrappers
  import M = Matrix4x4
  import MM = MatrixMethods
  import TR = Transforms

  datatype Shape = Sphere(transform: M.Matrix)

  /** `Shape::transformation`: the transform of whichever variant, here the
      only one. Rebuilding a sphere from it gives the same shape. */
  function Transformation(s: Shape): (m: M.Matrix)
    ensures FromTransformation(m) == s
  {
    match s
    case Sphere(t) => t
  }

  /** `Shape::sphere_from_transformation`: the transform reads back
      unchanged. */
  function FromTransformation(m: M.Matrix): (s: Shape)
    ensures s.Sphere? && s.transform == m
  {
    Sphere(m)
  }

  /** `Shape::sphere`: the unit sphere, untransformed. */
  function Default(): (s: Shape)
  {
    FromTransformation(M.Identity())
  }

  /** The transform put in is the transform read out, and the default
      sphere carries the identity. */
  lemma TransformationRoundTrip(m: M.Matrix)
    ensures Transformation(FromTransformation(m)) == m
    ensures Transformation(Default()) == M.Identity()
  {
  }

  /** Derived `PartialEq`: two spheres compare equal when their transforms
      do, entry by entry up to the tolerance. */
  predicate Eq(a: Shape, b: Shape)
  {
    MM.Eq(MM.New(Transformation(a), 4), MM.New(Transformation(b), 4))
  }

  /** Shape equality is reflexive and symmetric. */
  lemma EqLaws(a: Shape, b: Shape)
    ensures Eq(a, a)
    ensures Eq(a, b) <==> Eq(b, a)
  {
    MM.EqReflexiveSymmetric(MM.New(Transformation(a), 4), MM.New(Transformation(b), 4));
  }

  /** The identity is its own inverse, so the default sphere can always be
      intersected. */
  lemma {:induction false} DefaultInverse()
    ensures M.Inverse(Transformation(Default())) == Some(M.Identity())
  {
    IdentityInverse(0.0);
  }

  /** The translation by (z, z, z) with z = 0 is the identity. The zero is
      a parameter because with literal arguments the verifier unfolds
      `inverse` on them and runs out of resources. */
  lemma {:induction false} IdentityInverse(z: real)
    requires z == 0.0
    ensures M.Inverse(M.Identity()) == Some(M.Identity())
  {
    TR.TranslationInverse(z, z, z);
    assert TR.Translation(z, z, z) == M.Identity();
    assert TR.Translation(-z, -z, -z) == M.Identity();
  }
}
