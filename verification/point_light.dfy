/** A point light source (src/primitives/point_light.rs): a position and an
    intensity. */
module Lights {
  import P = Points
  import C = Colors
  import FC = FloatCompare

  datatype PointLight = PointLight(intensity: C.Color, position: P.Point)

  /** `PointLight::new`: `position()` and `intensity()` read back the
      arguments. */
  function New(position: P.Point, intensity: C.Color): (l: PointLight)
    ensures l.position == position && l.intensity == intensity
  {
    PointLight(intensity, position)
  }

  /** Every light is the one `new` builds from its own accessors. */
  lemma NewFromAccessors(l: PointLight)
    ensures New(l.position, l.intensity) == l
  {
  }

  /** Derived `PartialEq`: both fields compare equal, each with the
      approximate equality of its type. */
  predicate Eq(a: PointLight, b: PointLight)
  {
    P.Eq(a.position, b.position) && C.Eq(a.intensity, b.intensity)
  }

  /** Light equality is reflexive and symmetric, and a light moved by more
      than the tolerance along x is a different light. */
  lemma EqLaws(a: PointLight, b: PointLight, d: real)
    requires d > FC.Tolerance
    ensures Eq(a, a)
    ensures Eq(a, b) <==> Eq(b, a)
    ensures !Eq(a, a.(position := P.Point(a.position.data.(x := a.position.data.x + d))))
  {
  }

  /** The case of the source's unit test: a white light at the origin reads
      back its position and intensity. */
  lemma CreationExample()
    ensures New(P.New(0.0, 0.0, 0.0), C.New(1.0, 1.0, 1.0)).position.data == P.Origin().data
    ensures New(P.New(0.0, 0.0, 0.0), C.New(1.0, 1.0, 1.0)).intensity == C.White
  {
  }
}
