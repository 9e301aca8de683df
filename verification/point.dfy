/** Positions (src/maths/point.rs): a typed wrapper around a tuple whose
    constructor fixes `w = 1`. The arithmetic operators fix the kind of their
    result: point - point is a vector, point -/+ vector is a point. */
module Points {
  import T = Tuples
  import V = Vectors

  datatype Point = Point(data: T.Tuple)

  function X(p: Point): real { p.data.x }
  function Y(p: Point): real { p.data.y }
  function Z(p: Point): real { p.data.z }
  function W(p: Point): real { p.data.w }

  /** `Point::new`: the coordinates read back unchanged and `w` is 1. */
  function New(x: real, y: real, z: real): (p: Point)
    ensures X(p) == x && Y(p) == y && Z(p) == z && W(p) == 1.0
    ensures T.IsPoint(p.data)
  {
    Point(T.NewPoint(x, y, z))
  }

  /** The origin of the coordinate system. */
  function Origin(): Point
  {
    New(0.0, 0.0, 0.0)
  }

  /** `Add<Vector> for Point`: moving a point along a vector; the result is a
      point again and differs from the start by exactly that vector. */
  function AddVector(p: Point, v: V.Vector): (r: Point)
    ensures W(p) == 1.0 && V.W(v) == 0.0 ==> W(r) == 1.0
    ensures T.Sub(r.data, p.data) == v.data
  {
    Point(T.Add(p.data, v.data))
  }

  /** `Sub for Point`: the vector leading from `q` to `p`; moving `q` along it
      arrives at `p`. */
  function Sub(p: Point, q: Point): (v: V.Vector)
    ensures W(p) == 1.0 && W(q) == 1.0 ==> V.W(v) == 0.0
    ensures AddVector(q, v) == p
  {
    V.Vector(T.Sub(p.data, q.data))
  }

  /** `Sub<Vector> for Point`: moving a point backwards along a vector; the
      result is a point again and adding the vector back restores `p`. */
  function SubVector(p: Point, v: V.Vector): (r: Point)
    ensures W(p) == 1.0 && V.W(v) == 0.0 ==> W(r) == 1.0
    ensures AddVector(r, v) == p
  {
    Point(T.Sub(p.data, v.data))
  }

  /** Derived `PartialEq`: approximate equality of the wrapped tuples. */
  predicate Eq(p: Point, q: Point)
  {
    T.Eq(p.data, q.data)
  }

  /** The cases of the source's unit tests. */
  lemma PointExamples()
    ensures W(New(1.0, 2.0, 3.0)) == 1.0
    ensures Sub(New(3.0, 2.0, 1.0), New(5.0, 6.0, 7.0)).data == T.Tuple(-2.0, -4.0, -6.0, 0.0)
  {
  }

  lemma SubVectorExample()
    ensures SubVector(New(3.0, 2.0, 1.0), V.New(5.0, 6.0, 7.0)).data == T.Tuple(-2.0, -4.0, -6.0, 1.0)
  {
  }
}
