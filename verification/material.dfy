/** Surface materials and Phong shading (src/primitives/material.rs). The
    two transcendental steps of the shading, normalising the vector to the
    light and raising the specular cosine to the shininess, are parameters:
    `normalize` and `pow`. */
module Materials {
  import C = Colors
  import L = Lights
  import P = Points
  import V = Vectors
  import FC = FloatCompare
  import T = Tuples

  datatype Material = Material(color: C.Color, ambient: real, diffuse: real, specular: real, shininess: real)

  /** `Material::default`: white, ambient 0.1, diffuse 0.9, specular 0.9,
      shininess 200. */
  function Default(): (m: Material)
    ensures m.color == C.White
    ensures m.ambient == 0.1 && m.diffuse == 0.9 && m.specular == 0.9 && m.shininess == 200.0
  {
    Material(C.White, 0.1, 0.9, 0.9, 200.0)
  }

  /** `PartialEq for Material`: approximate colour equality and `is_same` on
      each of the four coefficients. */
  predicate Eq(a: Material, b: Material)
  {
    C.Eq(a.color, b.color)
    && FC.IsSame(a.ambient, b.ambient) && FC.IsSame(a.diffuse, b.diffuse)
    && FC.IsSame(a.specular, b.specular) && FC.IsSame(a.shininess, b.shininess)
  }

  /** Material equality is reflexive and symmetric, and a shininess moved by
      more than the tolerance makes a different material. */
  lemma EqLaws(a: Material, b: Material, d: real)
    requires d > FC.Tolerance
    ensures Eq(a, a)
    ensures Eq(a, b) <==> Eq(b, a)
    ensures !Eq(a, a.(shininess := a.shininess + d))
  {

  }

  // ---------------------------------------------------------------------
  // The terms of the shading

  /** The surface colour filtered by the light's colour. */
  function EffectiveColor(m: Material, light: L.PointLight): C.Color
  {
    C.Mul(m.color, light.intensity)
  }

  /** The unit vector from the surface point towards the light. */
  function LightVector(light: L.PointLight, position: P.Point, normalize: V.Vector -> V.Vector): V.Vector
  {
    normalize(P.Sub(light.position, position))
  }

  /** The cosine between the light vector and the normal. */
  function LightDotNormal(light: L.PointLight, position: P.Point, normalv: V.Vector,
                          normalize: V.Vector -> V.Vector): real
  {
    V.Dot(LightVector(light, position, normalize), normalv)
  }

  /** The cosine between the light reflected about the normal and the eye
      vector. */
  function ReflectDotEye(light: L.PointLight, position: P.Point, eyev: V.Vector, normalv: V.Vector,
                         normalize: V.Vector -> V.Vector): real
  {
    V.Dot(V.Reflect(V.Neg(LightVector(light, position, normalize)), normalv), eyev)
  }

  function AmbientTerm(m: Material, light: L.PointLight): C.Color
  {
    C.Scale(EffectiveColor(m, light), m.ambient)
  }

  function DiffuseTerm(m: Material, light: L.PointLight, ldn: real): C.Color
  {
    C.Scale(C.Scale(EffectiveColor(m, light), m.diffuse), ldn)
  }

  function SpecularTerm(m: Material, light: L.PointLight, rde: real, pow: (real, real) -> real): C.Color
  {
    C.Scale(C.Scale(light.intensity, m.specular), pow(rde, m.shininess))
  }

  /** `Material::lighting`: ambient, plus diffuse when the light is on the
      normal's side, plus specular when the reflection also points towards
      the eye; only the ambient term in shadow. */
  function Lighting(m: Material, light: L.PointLight, position: P.Point, eyev: V.Vector, normalv: V.Vector,
                    inShadow: bool, normalize: V.Vector -> V.Vector, pow: (real, real) -> real): (r: C.Color)
    ensures inShadow ==> r == AmbientTerm(m, light)
    ensures LightDotNormal(light, position, normalv, normalize) < 0.0 ==> r == AmbientTerm(m, light)
    ensures !inShadow && LightDotNormal(light, position, normalv, normalize) >= 0.0
            && ReflectDotEye(light, position, eyev, normalv, normalize) <= 0.0
            ==> r == C.Add(AmbientTerm(m, light), DiffuseTerm(m, light, LightDotNormal(light, position, normalv, normalize)))
  {
    var ldn := LightDotNormal(light, position, normalv, normalize);
    var rde := ReflectDotEye(light, position, eyev, normalv, normalize);
    Combine(AmbientTerm(m, light), DiffuseTerm(m, light, ldn), SpecularTerm(m, light, rde, pow), inShadow, ldn, rde)
  }

  /** The case analysis of `lighting` once the two cosines and the three
      candidate terms are known: diffuse is dropped when the light is behind
      the surface, specular also when the reflection points away from the
      eye, and both in shadow. */
  function Combine(ambient: C.Color, diffuse: C.Color, specular: C.Color, inShadow: bool, ldn: real, rde: real): C.Color
  {
    var diffuse := if ldn < 0.0 then C.Black else diffuse;
    var specular := if ldn < 0.0 || rde <= 0.0 then C.Black else specular;
    if inShadow then ambient else C.Add(C.Add(ambient, diffuse), specular)
  }

  /** The shading channel by channel, as the Phong model states it: the
      ambient share of the filtered colour, the diffuse share weighted by the
      light cosine when the surface is lit and faces the light, and the
      specular share of the light weighted by the powered reflection cosine
      when that cosine is also positive. */
  lemma {:induction false} LightingChannels(m: Material, light: L.PointLight, position: P.Point, eyev: V.Vector,
                                            normalv: V.Vector, inShadow: bool,
                                            normalize: V.Vector -> V.Vector, pow: (real, real) -> real,
                                            ldn: real, rde: real)
    requires ldn == LightDotNormal(light, position, normalv, normalize)
    requires rde == ReflectDotEye(light, position, eyev, normalv, normalize)
    ensures C.R(Lighting(m, light, position, eyev, normalv, inShadow, normalize, pow))
            == Phong(C.R(m.color), C.R(light.intensity), m, inShadow, ldn, rde, pow(rde, m.shininess))
    ensures C.G(Lighting(m, light, position, eyev, normalv, inShadow, normalize, pow))
            == Phong(C.G(m.color), C.G(light.intensity), m, inShadow, ldn, rde, pow(rde, m.shininess))
    ensures C.B(Lighting(m, light, position, eyev, normalv, inShadow, normalize, pow))
            == Phong(C.B(m.color), C.B(light.intensity), m, inShadow, ldn, rde, pow(rde, m.shininess))
  {
    LightingChannel(m, light, position, eyev, normalv, inShadow, normalize, pow, ldn, rde, 0);
    LightingChannel(m, light, position, eyev, normalv, inShadow, normalize, pow, ldn, rde, 1);
    LightingChannel(m, light, position, eyev, normalv, inShadow, normalize, pow, ldn, rde, 2);
  }

  /** Channel `k` of a colour: red, green, blue for k = 0, 1, 2. */
  function Channel(c: C.Color, k: nat): real
  {
    if k == 0 then C.R(c) else if k == 1 then C.G(c) else C.B(c)
  }

  lemma LightingChannel(m: Material, light: L.PointLight, position: P.Point, eyev: V.Vector,
                        normalv: V.Vector, inShadow: bool,
                        normalize: V.Vector -> V.Vector, pow: (real, real) -> real,
                        ldn: real, rde: real, k: nat)
    requires ldn == LightDotNormal(light, position, normalv, normalize)
    requires rde == ReflectDotEye(light, position, eyev, normalv, normalize)
    ensures Channel(Lighting(m, light, position, eyev, normalv, inShadow, normalize, pow), k)
            == Phong(Channel(m.color, k), Channel(light.intensity, k), m, inShadow, ldn, rde, pow(rde, m.shininess))
  {
    LightingIsCombine(m, light, position, eyev, normalv, inShadow, normalize, pow, ldn, rde);
    TermsPhong(m, light, pow, inShadow, ldn, rde, k);
  }

  /** `lighting` is the combination of its three terms at the two cosines. */
  lemma LightingIsCombine(m: Material, light: L.PointLight, position: P.Point, eyev: V.Vector,
                          normalv: V.Vector, inShadow: bool,
                          normalize: V.Vector -> V.Vector, pow: (real, real) -> real,
                          ldn: real, rde: real)
    requires ldn == LightDotNormal(light, position, normalv, normalize)
    requires rde == ReflectDotEye(light, position, eyev, normalv, normalize)
    ensures Lighting(m, light, position, eyev, normalv, inShadow, normalize, pow)
            == Combine(AmbientTerm(m, light), DiffuseTerm(m, light, ldn), SpecularTerm(m, light, rde, pow), inShadow, ldn, rde)
  {
  }

  /** The combination of the three terms, channel by channel, is the Phong
      sum. */
  lemma TermsPhong(m: Material, light: L.PointLight, pow: (real, real) -> real, inShadow: bool, ldn: real, rde: real, k: nat)
    ensures Channel(Combine(AmbientTerm(m, light), DiffuseTerm(m, light, ldn), SpecularTerm(m, light, rde, pow), inShadow, ldn, rde), k)
            == Phong(Channel(m.color, k), Channel(light.intensity, k), m, inShadow, ldn, rde, pow(rde, m.shininess))
  {
    var a, d, sp := TermsAbstract(m, light, pow, ldn, rde, k);
    CombinePhong(a, d, sp, Channel(m.color, k), Channel(light.intensity, k), m, pow(rde, m.shininess), inShadow, ldn, rde, k);
  }

  lemma TermsAbstract(m: Material, light: L.PointLight, pow: (real, real) -> real, ldn: real, rde: real, k: nat)
    returns (a: C.Color, d: C.Color, sp: C.Color)
    ensures a == AmbientTerm(m, light) && d == DiffuseTerm(m, light, ldn) && sp == SpecularTerm(m, light, rde, pow)
    ensures Channel(a, k) == Channel(m.color, k) * Channel(light.intensity, k) * m.ambient
    ensures Channel(d, k) == Channel(m.color, k) * Channel(light.intensity, k) * m.diffuse * ldn
    ensures Channel(sp, k) == Channel(light.intensity, k) * m.specular * pow(rde, m.shininess)
  {
    a, d, sp := AmbientTerm(m, light), DiffuseTerm(m, light, ldn), SpecularTerm(m, light, rde, pow);
    AmbientChannel(m, light, a, k);
    DiffuseChannel(m, light, ldn, d, k);
    SpecularChannel(m, light, rde, pow, sp, k);
  }

  /** The combination of terms with the Phong channels is the Phong sum. */
  lemma CombinePhong(a: C.Color, d: C.Color, sp: C.Color, s: real, i: real, m: Material, p: real,
                     inShadow: bool, ldn: real, rde: real, k: nat)
    requires Channel(a, k) == s * i * m.ambient
    requires Channel(d, k) == s * i * m.diffuse * ldn
    requires Channel(sp, k) == i * m.specular * p
    ensures Channel(Combine(a, d, sp, inShadow, ldn, rde), k) == Phong(s, i, m, inShadow, ldn, rde, p)
  {
    CombineChannel(a, d, sp, inShadow, ldn, rde, k);
    GatePhong(Channel(Combine(a, d, sp, inShadow, ldn, rde), k), Channel(a, k), Channel(d, k), Channel(sp, k),
              s, i, m, inShadow, ldn, rde, p);
  }

  /** The gated channel sum is the Phong channel. */
  lemma GatePhong(x: real, a: real, d: real, sp: real, s: real, i: real, m: Material,
                  inShadow: bool, ldn: real, rde: real, p: real)
    requires x == Gate(a, d, sp, inShadow, ldn, rde)
    requires a == s * i * m.ambient && d == s * i * m.diffuse * ldn && sp == i * m.specular * p
    ensures x == Phong(s, i, m, inShadow, ldn, rde, p)
  {
  }

  /** Each channel of the combination is the ambient channel plus the
      diffuse and specular channels where they apply. */
  lemma CombineChannel(a: C.Color, d: C.Color, sp: C.Color, inShadow: bool, ldn: real, rde: real, k: nat)
    ensures Channel(Combine(a, d, sp, inShadow, ldn, rde), k)
            == Gate(Channel(a, k), Channel(d, k), Channel(sp, k), inShadow, ldn, rde)
  {
    if inShadow {
    } else if ldn < 0.0 {
      SumChannels(a, C.Black, C.Black);
    } else if rde <= 0.0 {
      SumChannels(a, d, C.Black);
    } else {
      SumChannels(a, d, sp);
    }
  }

  /** One channel of the combination, from the channels of the terms. */
  function Gate(a: real, d: real, sp: real, inShadow: bool, ldn: real, rde: real): real
  {
    var lit := !inShadow && ldn >= 0.0;
    a + (if lit then d else 0.0) + (if lit && rde > 0.0 then sp else 0.0)
  }

  /** The channels of a sum of three colours. */
  lemma SumChannels(a: C.Color, d: C.Color, sp: C.Color)
    ensures C.R(C.Add(C.Add(a, d), sp)) == C.R(a) + C.R(d) + C.R(sp)
    ensures C.G(C.Add(C.Add(a, d), sp)) == C.G(a) + C.G(d) + C.G(sp)
    ensures C.B(C.Add(C.Add(a, d), sp)) == C.B(a) + C.B(d) + C.B(sp)
  {
  }

  lemma AmbientChannel(m: Material, light: L.PointLight, a: C.Color, k: nat)
    requires a == AmbientTerm(m, light)
    ensures Channel(a, k) == Channel(m.color, k) * Channel(light.intensity, k) * m.ambient
  {
  }

  lemma DiffuseChannel(m: Material, light: L.PointLight, ldn: real, d: C.Color, k: nat)
    requires d == DiffuseTerm(m, light, ldn)
    ensures Channel(d, k) == Channel(m.color, k) * Channel(light.intensity, k) * m.diffuse * ldn
  {
  }

  lemma SpecularChannel(m: Material, light: L.PointLight, rde: real, pow: (real, real) -> real, sp: C.Color, k: nat)
    requires sp == SpecularTerm(m, light, rde, pow)
    ensures Channel(sp, k) == Channel(light.intensity, k) * m.specular * pow(rde, m.shininess)
  {
  }

  /** One channel of the Phong sum, for a surface channel `s`, a light
      channel `i` and the powered reflection cosine `p`. */
  function Phong(s: real, i: real, m: Material, inShadow: bool, ldn: real, rde: real, p: real): real
  {
    var lit := !inShadow && ldn >= 0.0;
    s * i * m.ambient
    + (if lit then s * i * m.diffuse * ldn else 0.0)
    + (if lit && rde > 0.0 then i * m.specular * p else 0.0)
  }
  // ---------------------------------------------------------------------
  // The cases of the source's unit tests, with the default material and a
  // white light. `normalize` and `pow` are pinned at the one argument each
  // test needs. The zero, the material and the light are parameters fixed by
  // `requires` because written as literals the verifier unfolds `lighting`
  // on them and runs out of resources.

  /** Eye between the light and the surface, all on the z axis: ambient,
      full diffuse and full specular, 1.9 in every channel. */
  lemma EyeBetweenExample(m: Material, light: L.PointLight, position: P.Point, eyev: V.Vector, normalv: V.Vector,
                          normalize: V.Vector -> V.Vector, pow: (real, real) -> real, o: real)
    requires o == 0.0 && m == Default() && light == L.New(P.New(o, o, -10.0), C.White)
    requires position == P.New(o, o, o) && eyev == V.New(o, o, -1.0) && normalv == eyev
    requires normalize(V.New(o, o, -10.0)) == V.New(o, o, -1.0) && pow(1.0, 200.0) == 1.0
    ensures C.R(Lighting(m, light, position, eyev, normalv, false, normalize, pow)) == 1.9
    ensures C.G(Lighting(m, light, position, eyev, normalv, false, normalize, pow)) == 1.9
    ensures C.B(Lighting(m, light, position, eyev, normalv, false, normalize, pow)) == 1.9
  {
    var ldn, rde := AxisCosines(light, position, eyev, normalv, normalize, o, -10.0, -1.0);
    var p := pow(rde, m.shininess);
    FullPhong(1.0, 1.0, m, ldn, rde, p);
    UnderWhite(m, light, position, eyev, normalv, normalize, pow, ldn, rde, Phong(1.0, 1.0, m, false, ldn, rde, p));
  }

  /** Light behind the surface: only the ambient term, 0.1 in every
      channel. */
  lemma LightBehindExample(m: Material, light: L.PointLight, position: P.Point, eyev: V.Vector, normalv: V.Vector,
                           normalize: V.Vector -> V.Vector, pow: (real, real) -> real, o: real)
    requires o == 0.0 && m == Default() && light == L.New(P.New(o, o, 10.0), C.White)
    requires position == P.New(o, o, o) && eyev == V.New(o, o, -1.0) && normalv == eyev
    requires normalize(V.New(o, o, 10.0)) == V.New(o, o, 1.0)
    ensures C.R(Lighting(m, light, position, eyev, normalv, false, normalize, pow)) == 0.1
    ensures C.G(Lighting(m, light, position, eyev, normalv, false, normalize, pow)) == 0.1
    ensures C.B(Lighting(m, light, position, eyev, normalv, false, normalize, pow)) == 0.1
  {
    var ldn, rde := AxisCosines(light, position, eyev, normalv, normalize, o, 10.0, 1.0);
    var p := pow(rde, m.shininess);
    AmbientPhong(1.0, 1.0, m, ldn, rde, p);
    UnderWhite(m, light, position, eyev, normalv, normalize, pow, ldn, rde, Phong(1.0, 1.0, m, false, ldn, rde, p));
  }

  /** Under a white light on a white surface every channel of the shading
      is the Phong channel of unit colours. */
  lemma UnderWhite(m: Material, light: L.PointLight, position: P.Point, eyev: V.Vector, normalv: V.Vector,
                   normalize: V.Vector -> V.Vector, pow: (real, real) -> real, ldn: real, rde: real, x: real)
    requires m.color == C.White && light.intensity == C.White
    requires ldn == LightDotNormal(light, position, normalv, normalize)
    requires rde == ReflectDotEye(light, position, eyev, normalv, normalize)
    requires x == Phong(1.0, 1.0, m, false, ldn, rde, pow(rde, m.shininess))
    ensures C.R(Lighting(m, light, position, eyev, normalv, false, normalize, pow)) == x
    ensures C.G(Lighting(m, light, position, eyev, normalv, false, normalize, pow)) == x
    ensures C.B(Lighting(m, light, position, eyev, normalv, false, normalize, pow)) == x
  {
    LightingChannels(m, light, position, eyev, normalv, false, normalize, pow, ldn, rde);
  }

  /** Both cosines for a light on the z axis, a surface at the origin facing
      -z and the eye looking along +z. */
  lemma AxisCosines(light: L.PointLight, position: P.Point, eyev: V.Vector, normalv: V.Vector,
                    normalize: V.Vector -> V.Vector, o: real, lz: real, nz: real) returns (ldn: real, rde: real)
    requires o == 0.0 && position == P.New(o, o, o) && light.position == P.New(o, o, lz)
    requires eyev == V.New(o, o, -1.0) && normalv == eyev
    requires normalize(V.New(o, o, lz)) == V.New(o, o, nz)
    ensures ldn == LightDotNormal(light, position, normalv, normalize) && ldn == -nz
    ensures rde == ReflectDotEye(light, position, eyev, normalv, normalize) && rde == -nz
  {
    LightVectorOnAxis(light, position, normalize, o, lz, nz);
    ldn, rde := CosinesOnAxis(LightVector(light, position, normalize), normalv, eyev, o, nz);
  }

  /** A light on the z axis seen from the origin. */
  lemma LightVectorOnAxis(light: L.PointLight, position: P.Point, normalize: V.Vector -> V.Vector,
                          o: real, lz: real, nz: real)
    requires o == 0.0 && position == P.New(o, o, o) && light.position == P.New(o, o, lz)
    requires normalize(V.New(o, o, lz)) == V.New(o, o, nz)
    ensures LightVector(light, position, normalize) == V.New(o, o, nz)
  {
    assert P.Sub(light.position, position).data == V.New(o, o, lz).data;
  }

  /** Both cosines when the light vector, the normal (-z) and the eye all
      lie on the z axis. */
  lemma CosinesOnAxis(lv: V.Vector, n: V.Vector, e: V.Vector, o: real, nz: real) returns (ldn: real, rde: real)
    requires o == 0.0 && lv == V.New(o, o, nz) && n == V.New(o, o, -1.0) && e == n
    ensures ldn == V.Dot(lv, n) && rde == V.Dot(V.Reflect(V.Neg(lv), n), e)
    ensures ldn == -nz && rde == -nz
  {
    ldn := V.Dot(lv, n);
    var d := V.Dot(V.Neg(lv), n);
    V.ReflectComponents(V.Neg(lv), n, d);
    rde := V.Dot(V.Reflect(V.Neg(lv), n), e);
  }

  /** The Phong channel of the default material under a unit light with
      both cosines and the powered cosine at 1. */
  lemma FullPhong(s: real, i: real, m: Material, ldn: real, rde: real, p: real)
    requires m == Default() && s == 1.0 && i == 1.0 && ldn == 1.0 && rde == 1.0 && p == 1.0
    ensures Phong(s, i, m, false, ldn, rde, p) == 1.9
  {
  }

  /** The Phong channel of the default material under a unit light behind
      the surface. */
  lemma AmbientPhong(s: real, i: real, m: Material, ldn: real, rde: real, p: real)
    requires m == Default() && s == 1.0 && i == 1.0 && ldn == -1.0
    ensures Phong(s, i, m, false, ldn, rde, p) == 0.1
  {
  }
}
