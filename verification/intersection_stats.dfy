/** The shading frame (src/primitives/intersection_stats.rs): a plain record
    of what is known at a hit, filled in by `prepare_computations`, which is
    not part of this model. */
module IntersectionStatistics {
  import S = Shapes
  import P = Points
  import V = Vectors

  datatype IntersectionStats = IntersectionStats(
    t: real,
    obj: S.Shape,
    point: P.Point,
    eyev: V.Vector,
    normalv: V.Vector,
    inside: bool,
    overPoint: P.Point)

  /** `IntersectionStats::new`: every accessor reads back the argument given
      for it. In particular `inside` is stored as given: nothing relates it
      to the eye and normal vectors. */
  function New(t: real, obj: S.Shape, point: P.Point, eyev: V.Vector, normalv: V.Vector,
               inside: bool, overPoint: P.Point): (s: IntersectionStats)
    ensures s.t == t && s.obj == obj
    ensures s.point == point && s.eyev == eyev && s.normalv == normalv
    ensures s.inside == inside && s.overPoint == overPoint
  {
    IntersectionStats(t, obj, point, eyev, normalv, inside, overPoint)
  }

  /** Conversely, every record is the one `new` builds from its own
      accessors: the constructor loses nothing. */
  lemma NewFromAccessors(s: IntersectionStats)
    ensures New(s.t, s.obj, s.point, s.eyev, s.normalv, s.inside, s.overPoint) == s
  {
  }

  /** The constructor accepts an `inside` flag contradicting the geometry:
      with the normal pointing along the eye vector, both flags are
      accepted and read back. */
  lemma InsideUnchecked(t: real, obj: S.Shape, point: P.Point, v: V.Vector)
    ensures New(t, obj, point, v, v, true, point).inside
    ensures !New(t, obj, point, v, v, false, point).inside
  {
  }
}
