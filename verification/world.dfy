/** Worlds (src/primitives/world.rs): a builder collecting lights and
    objects, and the finished world that answers the renderer's questions.
    The square root, vector length and normalisation are parameters, and so
    is the shading of a hit (`prepare_computations` followed by
    `shade_hit`): `shade_hit` lights the hit with its shape's material, and
    neither that nor `prepare_computations` is part of this model. A panic anywhere
    below (a shape without an inverse, a degenerate ray) is `None`. */
module Worlds {
  import opened Wrappers
  import C = Colors
  import L = Lights
  import P = Points
  import V = Vectors
  import S = Shapes
  import R = Rays
  import I = Intersections
  import TR = Transforms

  /** The builder `World`. */
  datatype World = World(lights: seq<L.PointLight>, objects: seq<S.Shape>)

  /** The finished `WorldImpl`; `lights()` and `objects()` read the fields. */
  datatype WorldImpl = WorldImpl(lights: seq<L.PointLight>, objects: seq<S.Shape>)

  // ---------------------------------------------------------------------
  // The builder

  /** `World::new`: no lights and no objects. */
  function New(): (w: World)
    ensures |w.lights| == 0 && |w.objects| == 0
  {
    World([], [])
  }

  /** `add_light`: the light goes at the end; the objects are untouched. */
  function AddLight(w: World, light: L.PointLight): (r: World)
    ensures |r.lights| == |w.lights| + 1 && r.lights[|w.lights|] == light
    ensures r.lights[..|w.lights|] == w.lights && r.objects == w.objects
  {
    World(w.lights + [light], w.objects)
  }

  /** `add_object`: the object goes at the end; the lights are untouched. */
  function AddObject(w: World, obj: S.Shape): (r: World)
    ensures |r.objects| == |w.objects| + 1 && r.objects[|w.objects|] == obj
    ensures r.objects[..|w.objects|] == w.objects && r.lights == w.lights
  {
    World(w.lights, w.objects + [obj])
  }

  /** `reset_lights`: no lights left; the objects are untouched. */
  function ResetLights(w: World): (r: World)
    ensures |r.lights| == 0 && r.objects == w.objects
  {
    World([], w.objects)
  }

  /** `generate`: both lists carried over unchanged and in order. */
  function Generate(w: World): (r: WorldImpl)
    ensures r.lights == w.lights && r.objects == w.objects
  {
    WorldImpl(w.lights, w.objects)
  }

  /** Adding several lights in turn, then several objects in turn. */
  function AddLights(w: World, ls: seq<L.PointLight>): World
    decreases |ls|
  {
    if ls == [] then w else AddLights(AddLight(w, ls[0]), ls[1..])
  }

  function AddObjects(w: World, os: seq<S.Shape>): World
    decreases |os|
  {
    if os == [] then w else AddObjects(AddObject(w, os[0]), os[1..])
  }

  /** Chained `add_light` calls append their lights in call order and leave
      the objects alone. */
  lemma {:induction false} AddLightsAppends(w: World, ls: seq<L.PointLight>)
    ensures AddLights(w, ls).lights == w.lights + ls
    ensures AddLights(w, ls).objects == w.objects
    decreases |ls|
  {
    if ls != [] {
      AddLightsAppends(AddLight(w, ls[0]), ls[1..]);
      assert w.lights + [ls[0]] + ls[1..] == w.lights + ls;
    }
  }

  /** Chained `add_object` calls append their objects in call order and
      leave the lights alone. */
  lemma {:induction false} AddObjectsAppends(w: World, os: seq<S.Shape>)
    ensures AddObjects(w, os).objects == w.objects + os
    ensures AddObjects(w, os).lights == w.lights
    decreases |os|
  {
    if os != [] {
      AddObjectsAppends(AddObject(w, os[0]), os[1..]);
      assert w.objects + [os[0]] + os[1..] == w.objects + os;
    }
  }

  /** Whatever lights and objects a scene lists, building it from an empty
      world and generating gives a world with exactly those, in order. */
  lemma BuildScene(ls: seq<L.PointLight>, os: seq<S.Shape>)
    ensures Generate(AddObjects(AddLights(New(), ls), os)) == WorldImpl(ls, os)
  {
    AddLightsAppends(New(), ls);
    AddObjectsAppends(AddLights(New(), ls), os);
  }

  /** Adding a light and adding an object commute, and resetting the
      lights forgets every light added before. */
  lemma BuilderLaws(w: World, light: L.PointLight, obj: S.Shape)
    ensures AddObject(AddLight(w, light), obj) == AddLight(AddObject(w, obj), light)
    ensures ResetLights(AddLight(w, light)) == ResetLights(w)
    ensures ResetLights(ResetLights(w)) == ResetLights(w)
  {
  }

  /** The source's unit test: a new world, generated, is empty. */
  lemma EmptyWorld()
    ensures Generate(New()).lights == [] && Generate(New()).objects == []
  {
  }

  // ---------------------------------------------------------------------
  // Intersecting the world

  /** The `flat_map` of a per-element step that may panic: the outputs
      concatenated in list order, `None` as soon as one step panics. */
  function Gather<T>(xs: seq<T>, f: T -> Option<seq<I.Intersection>>): (r: Option<seq<I.Intersection>>)
    ensures r.Some? <==> forall k :: 0 <= k < |xs| ==> f(xs[k]).Some?
    decreases |xs|
  {
    if xs == [] then Some([])
    else
      var front := xs[..|xs| - 1];
      assert forall k :: 0 <= k < |front| ==> front[k] == xs[k];
      match Gather(front, f)
      case None => None
      case Some(ys) =>
        match f(xs[|xs| - 1])
        case None => None
        case Some(zs) => Some(ys + zs)
  }

  /** An element is in the gathered list exactly when some step output
      it. */
  lemma {:induction false} GatherMembers<T>(xs: seq<T>, f: T -> Option<seq<I.Intersection>>, x: I.Intersection)
    requires Gather(xs, f).Some?
    ensures x in Gather(xs, f).value <==> exists k :: 0 <= k < |xs| && f(xs[k]).Some? && x in f(xs[k]).value
    decreases |xs|
  {
    if xs != [] {
      var n := |xs| - 1;
      var front := xs[..n];
      assert forall k :: 0 <= k < |front| ==> front[k] == xs[k];
      GatherMembers(front, f, x);
      var ys := Gather(front, f).value;
      var zs := f(xs[n]).value;
      assert Gather(xs, f).value == ys + zs;
      if exists k :: 0 <= k < |xs| && f(xs[k]).Some? && x in f(xs[k]).value {
        var k :| 0 <= k < |xs| && f(xs[k]).Some? && x in f(xs[k]).value;
        if k < n {
          assert front[k] == xs[k];
        }
      }
    }
  }

  /** The intersections of every object with the ray, object by object in
      list order (the `flat_map` before the sort). */
  function AllIntersections(objects: seq<S.Shape>, ray: R.Ray, sqrt: real -> real): (r: Option<seq<I.Intersection>>)
    ensures r.Some? <==> forall k :: 0 <= k < |objects| ==> R.Intersects(ray, objects[k], sqrt).Some?
  {
    Gather(objects, s => R.Intersects(ray, s, sqrt))
  }

  /** An intersection is in the world's list exactly when it is among the
      intersections of one of the objects. */
  lemma AllIntersectionsMembers(objects: seq<S.Shape>, ray: R.Ray, sqrt: real -> real, x: I.Intersection)
    requires AllIntersections(objects, ray, sqrt).Some?
    ensures x in AllIntersections(objects, ray, sqrt).value <==>
              exists k :: 0 <= k < |objects| && x in R.Intersects(ray, objects[k], sqrt).value
  {
    GatherMembers(objects, s => R.Intersects(ray, s, sqrt), x);
  }

  /** `ray_intersects`: all the intersections, sorted ascending by `t`. */
  function RayIntersects(w: WorldImpl, ray: R.Ray, sqrt: real -> real): (r: Option<seq<I.Intersection>>)
    ensures r.Some? <==> AllIntersections(w.objects, ray, sqrt).Some?
    ensures r.Some? ==> I.Sorted(r.value)
    ensures r.Some? ==> multiset(r.value) == multiset(AllIntersections(w.objects, ray, sqrt).value)
  {
    match AllIntersections(w.objects, ray, sqrt)
    case None => None
    case Some(xs) => Some(I.SortByT(xs))
  }

  /** Every intersection the world reports belongs to one of its objects:
      it is an intersection of that object with the ray and carries it. */
  lemma RayIntersectsMembers(w: WorldImpl, ray: R.Ray, sqrt: real -> real, x: I.Intersection)
    requires RayIntersects(w, ray, sqrt).Some?
    ensures x in RayIntersects(w, ray, sqrt).value <==>
              exists k :: 0 <= k < |w.objects| && x in R.Intersects(ray, w.objects[k], sqrt).value
  {
    var all := AllIntersections(w.objects, ray, sqrt).value;
    assert x in RayIntersects(w, ray, sqrt).value <==> x in all by {
      assert x in multiset(RayIntersects(w, ray, sqrt).value) <==> x in multiset(all);
    }
    AllIntersectionsMembers(w.objects, ray, sqrt, x);
  }

  /** A world without objects reports no intersections. */
  lemma NoObjectsNoIntersections(w: WorldImpl, ray: R.Ray, sqrt: real -> real)
    requires w.objects == []
    ensures RayIntersects(w, ray, sqrt) == Some([])
  {
  }

  /** The shape of the source's unit test on the default world: when the
      first object is met at a and b and the second, inside it, at c and d,
      with a < c < d < b, the world reports a, c, d, b. For the default
      world's unit sphere and sphere scaled by 0.5 and the ray from
      (0, 0, -5) along +z these are 4, 4.5, 5.5 and 6 (`Rays.IntersectsExamples`
      and `Rays.HalfSphereExample` give the two spheres' hits). */
  lemma TwoSphereWorld(w: WorldImpl, r: R.Ray, sqrt: real -> real,
                       a: I.Intersection, b: I.Intersection, c: I.Intersection, d: I.Intersection)
    requires |w.objects| == 2
    requires R.Intersects(r, w.objects[0], sqrt) == Some([a, b])
    requires R.Intersects(r, w.objects[1], sqrt) == Some([c, d])
    requires a.t < c.t < d.t < b.t
    ensures RayIntersects(w, r, sqrt) == Some([a, c, d, b])
  {
    var f := s => R.Intersects(r, s, sqrt);
    assert f(w.objects[0]) == Some([a, b]) && f(w.objects[1]) == Some([c, d]);
    GatherNested(w.objects, f, a, b, c, d);
  }

  /** The same on the gathered list: the two lists concatenated, sorted. */
  lemma GatherNested<T>(xs: seq<T>, f: T -> Option<seq<I.Intersection>>,
                        a: I.Intersection, b: I.Intersection, c: I.Intersection, d: I.Intersection)
    requires |xs| == 2 && f(xs[0]) == Some([a, b]) && f(xs[1]) == Some([c, d])
    requires a.t < c.t < d.t < b.t
    ensures Gather(xs, f) == Some([a, b] + [c, d])
    ensures I.SortByT(Gather(xs, f).value) == [a, c, d, b]
  {
    GatherPair(xs, f);
    I.NestedSort(Gather(xs, f).value, a, b, c, d);
  }

  /** Gathering over two objects concatenates their lists. */
  lemma GatherPair<T>(xs: seq<T>, f: T -> Option<seq<I.Intersection>>)
    requires |xs| == 2 && f(xs[0]).Some? && f(xs[1]).Some?
    ensures Gather(xs, f) == Some(f(xs[0]).value + f(xs[1]).value)
  {
    var one := xs[..1];
    assert one[..|one| - 1] == [] && one[|one| - 1] == xs[0];
    assert Gather(one, f) == Some([] + f(xs[0]).value);
    assert [] + f(xs[0]).value == f(xs[0]).value;
    assert xs[..|xs| - 1] == one && xs[|xs| - 1] == xs[1];
  }

  // ---------------------------------------------------------------------
  // Colour along a ray

  /** `color_at`: black when the ray hits nothing at a non-negative `t`,
      otherwise the shading of the hit. */
  function ColorAt(w: WorldImpl, ray: R.Ray, sqrt: real -> real,
                   shade: (I.Intersection, R.Ray) -> C.Color): (c: Option<C.Color>)
    ensures c.None? <==> RayIntersects(w, ray, sqrt).None?
  {
    ShadeFound(RayIntersects(w, ray, sqrt), ray, shade)
  }

  /** The `match` in `color_at`, on the list `ray_intersects` gave. */
  function ShadeFound(found: Option<seq<I.Intersection>>, ray: R.Ray,
                      shade: (I.Intersection, R.Ray) -> C.Color): Option<C.Color>
  {
    match found
    case None => None
    case Some(xs) =>
      match I.Hit(xs)
      case None => Some(C.Black)
      case Some(h) => Some(shade(h, ray))
  }

  /** Black exactly when every intersection of every object lies behind
      the ray; otherwise the shading of a nearest non-negative intersection
      among all of the objects' intersections. */
  lemma ColorAtHit(w: WorldImpl, ray: R.Ray, sqrt: real -> real, shade: (I.Intersection, R.Ray) -> C.Color)
    requires AllIntersections(w.objects, ray, sqrt).Some?
    ensures var xs := AllIntersections(w.objects, ray, sqrt).value;
            (forall k :: 0 <= k < |xs| ==> xs[k].t < 0.0) ==> ColorAt(w, ray, sqrt, shade) == Some(C.Black)
    ensures var xs := AllIntersections(w.objects, ray, sqrt).value;
            (exists k :: 0 <= k < |xs| && xs[k].t >= 0.0) ==>
              exists h :: I.IsHitOf(h, xs) && ColorAt(w, ray, sqrt, shade) == Some(shade(h, ray))
  {
    ShadeFoundMeaning(RayIntersects(w, ray, sqrt), AllIntersections(w.objects, ray, sqrt).value, ray, shade);
  }

  /** `ShadeFound` on a rearrangement of `xs`: black when every `t` in `xs` is
      negative, otherwise the shading of the hit of `xs`. */
  lemma ShadeFoundMeaning(found: Option<seq<I.Intersection>>, xs: seq<I.Intersection>, ray: R.Ray,
                          shade: (I.Intersection, R.Ray) -> C.Color)
    requires found.Some? && multiset(found.value) == multiset(xs)
    ensures (forall k :: 0 <= k < |xs| ==> xs[k].t < 0.0) ==> ShadeFound(found, ray, shade) == Some(C.Black)
    ensures (exists k :: 0 <= k < |xs| && xs[k].t >= 0.0) ==>
              exists h :: I.IsHitOf(h, xs) && ShadeFound(found, ray, shade) == Some(shade(h, ray))
  {
    HitOfRearranged(found.value, xs);
  }

  /** The hit of a list, described through any rearrangement of it. */
  lemma HitOfRearranged(sorted: seq<I.Intersection>, xs: seq<I.Intersection>)
    requires multiset(sorted) == multiset(xs)
    ensures (forall k :: 0 <= k < |xs| ==> xs[k].t < 0.0) ==> I.Hit(sorted).None?
    ensures (exists k :: 0 <= k < |xs| && xs[k].t >= 0.0) ==> I.Hit(sorted).Some? && I.IsHitOf(I.Hit(sorted).value, xs)
  {
    I.HitCorrect(sorted);
    SameNonNegative(sorted, xs);
    if I.Hit(sorted).Some? {
      HitOfPermutation(I.Hit(sorted).value, sorted, xs);
    }
  }

  /** Two lists with the same elements have a non-negative `t` together. */
  lemma SameNonNegative(a: seq<I.Intersection>, b: seq<I.Intersection>)
    requires multiset(a) == multiset(b)
    ensures (forall k :: 0 <= k < |a| ==> a[k].t < 0.0) <==> (forall k :: 0 <= k < |b| ==> b[k].t < 0.0)
  {
    forall k | 0 <= k < |b|
      ensures b[k] in a
    {
      assert b[k] in multiset(b);
    }
    forall k | 0 <= k < |a|
      ensures a[k] in b
    {
      assert a[k] in multiset(a);
    }
  }

  /** The hit of a list is the hit of any rearrangement of it. */
  lemma HitOfPermutation(h: I.Intersection, a: seq<I.Intersection>, b: seq<I.Intersection>)
    requires multiset(a) == multiset(b) && I.IsHitOf(h, a)
    ensures I.IsHitOf(h, b)
  {
    assert h in multiset(a);
    forall k | 0 <= k < |b| && b[k].t >= 0.0
      ensures h.t <= b[k].t
    {
      assert b[k] in multiset(b);
      var j :| 0 <= j < |a| && a[j] == b[k];
    }
  }

  // ---------------------------------------------------------------------
  // Shadows

  /** The vector from a point to a light. */
  function ToLight(light: L.PointLight, point: P.Point): V.Vector
  {
    P.Sub(light.position, point)
  }

  /** The ray from a point towards a light, along the normalised vector. */
  function ShadowRay(light: L.PointLight, point: P.Point, normalize: V.Vector -> V.Vector): R.Ray
  {
    R.Ray(point, normalize(ToLight(light, point)))
  }

  /** The closure passed to `all` in `is_shadowed`, for one light: the
      shadow ray towards it and the distance to it. */
  function LightBlocked(w: WorldImpl, light: L.PointLight, point: P.Point, sqrt: real -> real,
                        len: V.Vector -> real, normalize: V.Vector -> V.Vector): Option<bool>
  {
    Blocked(w, ShadowRay(light, point, normalize), len(ToLight(light, point)), sqrt)
  }

  /** Whether the hit along `ray` comes before `distance`. */
  function Blocked(w: WorldImpl, ray: R.Ray, distance: real, sqrt: real -> real): (b: Option<bool>)
    ensures b.None? <==> RayIntersects(w, ray, sqrt).None?
  {
    HitBeforeDistance(RayIntersects(w, ray, sqrt), distance)
  }

  /** The body of that closure once `ray_intersects` has answered. */
  function HitBeforeDistance(found: Option<seq<I.Intersection>>, distance: real): Option<bool>
  {
    match found
    case None => None
    case Some(xs) =>
      match I.Hit(xs)
      case None => Some(false)
      case Some(h) => Some(h.t < distance)
  }

  /** Some intersection lies at a non-negative `t` strictly below `d`. */
  predicate ObstacleBefore(xs: seq<I.Intersection>, d: real)
  {
    exists k :: 0 <= k < |xs| && 0.0 <= xs[k].t < d
  }

  /** The ray towards a light is blocked exactly when some object is met
      at a non-negative `t` strictly below the distance to the light; an
      obstacle exactly at the light's distance does not count. */
  lemma BlockedMeaning(w: WorldImpl, ray: R.Ray, distance: real, sqrt: real -> real)
    requires AllIntersections(w.objects, ray, sqrt).Some?
    ensures var xs := AllIntersections(w.objects, ray, sqrt).value;
            Blocked(w, ray, distance, sqrt) == Some(true) <==> ObstacleBefore(xs, distance)
  {
    var found, xs := RayIntersects(w, ray, sqrt), AllIntersections(w.objects, ray, sqrt).value;
    assert found.Some? && multiset(found.value) == multiset(xs);
    assert Blocked(w, ray, distance, sqrt) == HitBeforeDistance(found, distance);
    HitBeforeDistanceMeaning(found, xs, distance);
  }

  /** On a rearrangement of `xs`, the hit comes before `d` exactly when
      some element of `xs` lies in [0, d). */
  lemma HitBeforeDistanceMeaning(found: Option<seq<I.Intersection>>, xs: seq<I.Intersection>, d: real)
    requires found.Some? && multiset(found.value) == multiset(xs)
    ensures HitBeforeDistance(found, d) == Some(true) <==> ObstacleBefore(xs, d)
  {
    HitBefore(found.value, xs, d);
  }

  /** The hit of a list comes before `d` exactly when some element of any
      rearrangement of the list lies in [0, d). */
  lemma HitBefore(sorted: seq<I.Intersection>, xs: seq<I.Intersection>, d: real)
    requires multiset(sorted) == multiset(xs)
    ensures (I.Hit(sorted).Some? && I.Hit(sorted).value.t < d) <==> exists k :: 0 <= k < |xs| && 0.0 <= xs[k].t < d
  {
    I.HitCorrect(sorted);
    SameNonNegative(sorted, xs);
    if I.Hit(sorted).Some? {
      var h := I.Hit(sorted).value;
      HitOfPermutation(h, sorted, xs);
      assert h in multiset(sorted);
      var i :| 0 <= i < |xs| && xs[i] == h;
    }
  }

  /** `all` over a list with a closure that may panic, in order, stopping
      at the first element the closure rejects. */
  function AllOf<T>(xs: seq<T>, p: T -> Option<bool>): Option<bool>
    decreases |xs|
  {
    if xs == [] then Some(true)
    else
      match p(xs[0])
      case None => None
      case Some(false) => Some(false)
      case Some(true) => AllOf(xs[1..], p)
  }

  /** `all` as a conjunction that short-circuits: true when the closure
      accepts every element; false at the first element it rejects, with
      every element before it accepted (later elements are never looked
      at, so a panic there is never reached); a panic at the first element
      that panics, with every element before it accepted. */
  lemma {:induction false} AllOfMeaning<T>(xs: seq<T>, p: T -> Option<bool>)
    ensures AllOf(xs, p) == Some(true) <==> forall k :: 0 <= k < |xs| ==> p(xs[k]) == Some(true)
    ensures AllOf(xs, p) == Some(false) <==>
              exists k :: 0 <= k < |xs| && p(xs[k]) == Some(false) && forall j :: 0 <= j < k ==> p(xs[j]) == Some(true)
    ensures AllOf(xs, p).None? <==>
              exists k :: 0 <= k < |xs| && p(xs[k]).None? && forall j :: 0 <= j < k ==> p(xs[j]) == Some(true)
    decreases |xs|
  {
    if xs != [] {
      var rest := xs[1..];
      AllOfMeaning(rest, p);
      assert forall k :: 0 <= k < |rest| ==> rest[k] == xs[k + 1];
      if p(xs[0]) == Some(true) {
        FirstShift(xs, p, Some(false));
        FirstShift(xs, p, None);
      }
    }
  }

  /** With the head accepted, a first element of `xs` with closure value
      `v` is one position later than a first such element of its tail. */
  lemma FirstShift<T>(xs: seq<T>, p: T -> Option<bool>, v: Option<bool>)
    requires xs != [] && p(xs[0]) == Some(true) && v != Some(true)
    ensures (exists k :: 0 <= k < |xs| && p(xs[k]) == v && forall j :: 0 <= j < k ==> p(xs[j]) == Some(true))
            <==> (exists k :: 0 <= k < |xs[1..]| && p(xs[1..][k]) == v && forall j :: 0 <= j < k ==> p(xs[1..][j]) == Some(true))
  {
    var rest := xs[1..];
    if exists k :: 0 <= k < |xs| && p(xs[k]) == v && forall j :: 0 <= j < k ==> p(xs[j]) == Some(true) {
      var k :| 0 <= k < |xs| && p(xs[k]) == v && forall j :: 0 <= j < k ==> p(xs[j]) == Some(true);
      assert k >= 1 && rest[k - 1] == xs[k];
      assert forall j :: 0 <= j < k - 1 ==> rest[j] == xs[j + 1];
    }
    if exists k :: 0 <= k < |rest| && p(rest[k]) == v && forall j :: 0 <= j < k ==> p(rest[j]) == Some(true) {
      var k :| 0 <= k < |rest| && p(rest[k]) == v && forall j :: 0 <= j < k ==> p(rest[j]) == Some(true);
      assert xs[k + 1] == rest[k];
      assert forall j :: 1 <= j < k + 1 ==> xs[j] == rest[j - 1];
    }
  }

  /** `is_shadowed`: whether the point is blocked from every light. */
  function IsShadowed(w: WorldImpl, point: P.Point, sqrt: real -> real,
                      len: V.Vector -> real, normalize: V.Vector -> V.Vector): (r: Option<bool>)
    ensures w.lights == [] ==> r == Some(true)
  {
    AllOf(w.lights, l => LightBlocked(w, l, point, sqrt, len, normalize))
  }

  /** When no shadow ray panics, `is_shadowed` does not panic either, and
      it is true exactly when every light is blocked, vacuously so with no
      lights. */
  lemma IsShadowedMeaning(w: WorldImpl, point: P.Point, sqrt: real -> real,
                          len: V.Vector -> real, normalize: V.Vector -> V.Vector)
    requires forall k :: 0 <= k < |w.lights| ==> AllIntersections(w.objects, ShadowRay(w.lights[k], point, normalize), sqrt).Some?
    ensures IsShadowed(w, point, sqrt, len, normalize).Some?
    ensures IsShadowed(w, point, sqrt, len, normalize) == Some(true) <==>
              forall k :: 0 <= k < |w.lights| ==> LightBlocked(w, w.lights[k], point, sqrt, len, normalize) == Some(true)
  {
    var p := l => LightBlocked(w, l, point, sqrt, len, normalize);
    AllOfMeaning(w.lights, p);
    forall k | 0 <= k < |w.lights|
      ensures p(w.lights[k]).Some?
    {
      assert AllIntersections(w.objects, ShadowRay(w.lights[k], point, normalize), sqrt).Some?;
    }
  }
}
