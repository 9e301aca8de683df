/** Intersections (src/primitives/intersection.rs): a ray parameter `t` and
    the shape hit there, and the choice of the visible hit among several. */
module Intersections {
  import opened Wrappers
  import S = Shapes

  datatype Intersection = Intersection(t: real, obj: S.Shape)

  /** `Intersection::new`; `t()` and `object()` read the fields back. */
  function New(t: real, s: S.Shape): (i: Intersection)
    ensures i.t == t && i.obj == s
  {
    Intersection(t, s)
  }

  // ---------------------------------------------------------------------
  // Sorting by t

  predicate Sorted(xs: seq<Intersection>)
  {
    forall i, j :: 0 <= i < j < |xs| ==> xs[i].t <= xs[j].t
  }

  /** `x` placed before the first element of the sorted `xs` with a larger
      or equal `t`. */
  function Insert(x: Intersection, xs: seq<Intersection>): (r: seq<Intersection>)
    requires Sorted(xs)
    ensures Sorted(r)
    ensures multiset(r) == multiset(xs) + multiset{x}
    ensures |r| == |xs| + 1
  {
    if xs == [] then [x]
    else if x.t <= xs[0].t then [x] + xs
    else
      var rest := Insert(x, xs[1..]);
      assert xs == [xs[0]] + xs[1..];
      AboveHead(xs, x, rest);
      [xs[0]] + rest
  }

  /** Inserting into the tail of a sorted list an element above its head
      keeps every element at or above the head. */
  lemma AboveHead(xs: seq<Intersection>, x: Intersection, rest: seq<Intersection>)
    requires Sorted(xs) && |xs| > 0 && xs[0].t < x.t
    requires multiset(rest) == multiset(xs[1..]) + multiset{x}
    ensures forall k :: 0 <= k < |rest| ==> xs[0].t <= rest[k].t
  {
    forall k | 0 <= k < |rest|
      ensures xs[0].t <= rest[k].t
    {
      assert rest[k] in multiset(rest);
      if rest[k] != x {
        assert rest[k] in multiset(xs[1..]);
        var j :| 0 <= j < |xs[1..]| && xs[1..][j] == rest[k];
        assert xs[j + 1] == rest[k];
      }
    }
  }

  /** The sort in `hit` and in the world's `ray_intersects`, ascending by
      `t`: a sorted permutation of its input. */
  function SortByT(xs: seq<Intersection>): (r: seq<Intersection>)
    ensures Sorted(r)
    ensures multiset(r) == multiset(xs)
    ensures |r| == |xs|
  {
    if xs == [] then []
    else
      assert xs == [xs[0]] + xs[1..];
      Insert(xs[0], SortByT(xs[1..]))
  }

  /** No two elements share a `t`. */
  predicate DistinctT(xs: seq<Intersection>)
  {
    forall i, j :: 0 <= i < j < |xs| ==> xs[i].t != xs[j].t
  }

  /** With distinct `t` values there is only one sorted arrangement, so any
      sort, stable or not, gives the same list as `SortByT`. */
  lemma {:induction false} SortedUnique(a: seq<Intersection>, b: seq<Intersection>)
    requires Sorted(a) && Sorted(b) && multiset(a) == multiset(b) && DistinctT(a)
    ensures a == b
  {
    if a == [] {
      assert |multiset(b)| == 0;
    } else {
      assert a[0] in multiset(b);
      var j :| 0 <= j < |b| && b[j] == a[0];
      assert b[0] in multiset(a);
      var i :| 0 <= i < |a| && a[i] == b[0];
      HeadIsLeast(a, i);
      HeadIsLeast(b, j);
      assert i == 0;
      SameTails(a, b);
      TailKeeps(a);
      TailKeeps(b);
      SortedUnique(a[1..], b[1..]);
    }
  }

  /** The head of a sorted list has the least `t`. */
  lemma HeadIsLeast(a: seq<Intersection>, i: nat)
    requires Sorted(a) && i < |a|
    ensures a[0].t <= a[i].t
  {
    if i > 0 {
      assert 0 < i;
    }
  }

  /** The tail of a sorted list with distinct `t` is sorted with distinct
      `t`. */
  lemma TailKeeps(a: seq<Intersection>)
    requires a != [] && Sorted(a)
    ensures Sorted(a[1..])
    ensures DistinctT(a) ==> DistinctT(a[1..])
  {
    forall i, j | 0 <= i < j < |a[1..]|
      ensures a[1..][i].t <= a[1..][j].t
    {
      assert a[1..][i] == a[i + 1] && a[1..][j] == a[j + 1];
    }
    if DistinctT(a) {
      forall i, j | 0 <= i < j < |a[1..]|
        ensures a[1..][i].t != a[1..][j].t
      {
        assert a[1..][i] == a[i + 1] && a[1..][j] == a[j + 1];
      }
    }
  }

  /** Lists with the same elements and the same head have tails with the
      same elements. */
  lemma SameTails(a: seq<Intersection>, b: seq<Intersection>)
    requires a != [] && b != [] && a[0] == b[0] && multiset(a) == multiset(b)
    ensures multiset(a[1..]) == multiset(b[1..])
  {
    assert a == [a[0]] + a[1..];
    assert b == [b[0]] + b[1..];
    assert multiset(a[1..]) == multiset(a) - multiset{a[0]};
    assert multiset(b[1..]) == multiset(b) - multiset{b[0]};
  }

  /** Sorting a list of two pairs, the second nested inside the first. */
  lemma NestedSort(xs: seq<Intersection>, a: Intersection, b: Intersection, c: Intersection, d: Intersection)
    requires xs == [a, b] + [c, d] && a.t < c.t < d.t < b.t
    ensures SortByT(xs) == [a, c, d, b]
  {
    var ys := [a, c, d, b];
    NestedPermutation(xs, ys, a, b, c, d);
    NestedSorted(ys, a, b, c, d);
    SortedUnique(ys, SortByT(xs));
  }

  lemma NestedPermutation<T>(xs: seq<T>, ys: seq<T>, a: T, b: T, c: T, d: T)
    requires xs == [a, b] + [c, d] && ys == [a, c, d, b]
    ensures multiset(xs) == multiset(ys)
  {
    SwapPermutation([b], [c, d]);
    assert xs == [a] + ([b] + [c, d]);
    assert ys == [a] + ([c, d] + [b]);
  }

  /** Swapping two blocks keeps the elements. */
  lemma SwapPermutation<T>(p: seq<T>, q: seq<T>)
    ensures multiset(p + q) == multiset(q + p)
  {
    calc {
      multiset(p + q);
      multiset(p) + multiset(q);
      multiset(q) + multiset(p);
      multiset(q + p);
    }
  }

  lemma NestedSorted(ys: seq<Intersection>, a: Intersection, b: Intersection, c: Intersection, d: Intersection)
    requires ys == [a, c, d, b] && a.t < c.t < d.t < b.t
    ensures Sorted(ys) && DistinctT(ys)
  {
  }

  // ---------------------------------------------------------------------
  // The hit

  /** The first element, in order, with a non-negative `t`. */
  function FirstNonNegative(xs: seq<Intersection>): (r: Option<Intersection>)
    ensures r.None? <==> forall k :: 0 <= k < |xs| ==> xs[k].t < 0.0
    ensures r.Some? ==> r.value in xs && r.value.t >= 0.0
  {
    if xs == [] then None
    else if xs[0].t >= 0.0 then Some(xs[0])
    else FirstNonNegative(xs[1..])
  }

  /** In a sorted list the first non-negative element has the smallest
      non-negative `t`. */
  lemma {:induction false} FirstNonNegativeLeast(xs: seq<Intersection>)
    requires Sorted(xs)
    ensures FirstNonNegative(xs).Some? ==>
              forall k :: 0 <= k < |xs| && xs[k].t >= 0.0 ==> FirstNonNegative(xs).value.t <= xs[k].t
  {
    if xs != [] && xs[0].t < 0.0 {
      FirstNonNegativeLeast(xs[1..]);
      forall k | 0 <= k < |xs| && xs[k].t >= 0.0
        ensures k >= 1 && xs[1..][k - 1] == xs[k]
      {
      }
    }
  }

  /** `Intersection::hit`: sort by `t`, drop the negative ones, take the
      first left. */
  function Hit(xs: seq<Intersection>): Option<Intersection>
  {
    FirstNonNegative(SortByT(xs))
  }

  /** The visible hit, independently of any sorting: an element of the list
      with non-negative `t` and no other non-negative `t` below it. */
  predicate IsHitOf(h: Intersection, xs: seq<Intersection>)
  {
    h in xs && h.t >= 0.0 && forall k :: 0 <= k < |xs| && xs[k].t >= 0.0 ==> h.t <= xs[k].t
  }

  /** `hit` is `None` exactly when every `t` is negative, and otherwise
      returns the smallest non-negative one. */
  lemma {:induction false} HitCorrect(xs: seq<Intersection>)
    ensures Hit(xs).None? <==> forall k :: 0 <= k < |xs| ==> xs[k].t < 0.0
    ensures Hit(xs).Some? ==> IsHitOf(Hit(xs).value, xs)
  {
    var sorted := SortByT(xs);
    assert multiset(sorted) == multiset(xs);
    forall k | 0 <= k < |xs|
      ensures exists q :: 0 <= q < |sorted| && sorted[q] == xs[k]
    {
      assert xs[k] in multiset(xs);
      assert xs[k] in sorted;
    }
    forall k | 0 <= k < |sorted|
      ensures sorted[k] in xs
    {
      assert sorted[k] in multiset(sorted);
    }
    var r := FirstNonNegative(sorted);
    FirstNonNegativeLeast(sorted);
    if r.Some? {
      forall k | 0 <= k < |xs| && xs[k].t >= 0.0
        ensures r.value.t <= xs[k].t
      {
        var q :| 0 <= q < |sorted| && sorted[q] == xs[k];
      }
    } else {
      forall k | 0 <= k < |xs|
        ensures xs[k].t < 0.0
      {
        var q :| 0 <= q < |sorted| && sorted[q] == xs[k];
      }
    }
  }

  /** The hit's `t` does not depend on the order of the list: any
      rearrangement has a hit exactly when the original does, at the same
      `t`. Which of several equal-`t` elements is returned is not
      specified. */
  lemma {:induction false} HitOrderIndependent(xs: seq<Intersection>, ys: seq<Intersection>)
    requires multiset(xs) == multiset(ys)
    ensures Hit(xs).Some? <==> Hit(ys).Some?
    ensures Hit(xs).Some? ==> Hit(xs).value.t == Hit(ys).value.t
  {
    HitCorrect(xs);
    HitCorrect(ys);
    SameHits(xs, ys, Hit(xs), Hit(ys));
  }

  /** Two lists with the same elements have hits at the same `t`. */
  lemma {:induction false} SameHits(xs: seq<Intersection>, ys: seq<Intersection>, hx: Option<Intersection>, hy: Option<Intersection>)
    requires multiset(xs) == multiset(ys)
    requires hx.None? <==> forall k :: 0 <= k < |xs| ==> xs[k].t < 0.0
    requires hx.Some? ==> IsHitOf(hx.value, xs)
    requires hy.None? <==> forall k :: 0 <= k < |ys| ==> ys[k].t < 0.0
    requires hy.Some? ==> IsHitOf(hy.value, ys)
    ensures hx.Some? <==> hy.Some?
    ensures hx.Some? ==> hx.value.t == hy.value.t
  {
    if hy.Some? {
      var i := Witness(hy.value, ys, xs);
    }
    if hx.Some? {
      var j := Witness(hx.value, xs, ys);
      if hy.Some? {
        var i := Witness(hy.value, ys, xs);
        assert hx.value.t <= xs[i].t;
        assert hy.value.t <= ys[j].t;
      }
    }
  }

  /** Where an element of `xs` sits in a list with the same elements. */
  lemma Witness(h: Intersection, xs: seq<Intersection>, ys: seq<Intersection>) returns (i: nat)
    requires h in xs && multiset(xs) == multiset(ys)
    ensures i < |ys| && ys[i] == h
  {
    assert h in multiset(xs);
    assert h in ys;
    i :| 0 <= i < |ys| && ys[i] == h;
  }

  /** The cases of the source's unit tests, on the default sphere. */
  lemma HitAllPositiveExample()
    ensures Hit([New(1.0, S.Default()), New(2.0, S.Default())]) == Some(New(1.0, S.Default()))
  {
    var xs := [New(1.0, S.Default()), New(2.0, S.Default())];
    HitCorrect(xs);
    assert xs[0].t == 1.0 && xs[1].t == 2.0;
  }

  lemma HitSomeNegativeExample()
    ensures Hit([New(-1.0, S.Default()), New(1.0, S.Default())]) == Some(New(1.0, S.Default()))
  {
    var xs := [New(-1.0, S.Default()), New(1.0, S.Default())];
    HitCorrect(xs);
    assert xs[0].t == -1.0 && xs[1].t == 1.0;
  }

  lemma HitAllNegativeExample()
    ensures Hit([New(-2.0, S.Default()), New(-1.0, S.Default())]) == None
  {
    var xs := [New(-2.0, S.Default()), New(-1.0, S.Default())];
    HitCorrect(xs);
    assert xs[0].t == -2.0 && xs[1].t == -1.0;
  }

  lemma HitLowestExample()
    ensures Hit([New(5.0, S.Default()), New(7.0, S.Default()), New(-3.0, S.Default()), New(2.0, S.Default())])
            == Some(New(2.0, S.Default()))
  {
    var xs := [New(5.0, S.Default()), New(7.0, S.Default()), New(-3.0, S.Default()), New(2.0, S.Default())];
    HitOfUniqueT(xs, xs[3]);
  }

  /** When the least non-negative `t` belongs to a single element, `hit`
      returns that element. */
  lemma {:induction false} HitOfUniqueT(xs: seq<Intersection>, h: Intersection)
    requires IsHitOf(h, xs)
    requires forall k :: 0 <= k < |xs| && xs[k].t == h.t ==> xs[k] == h
    ensures Hit(xs) == Some(h)
  {
    HitCorrect(xs);
    var i :| 0 <= i < |xs| && xs[i] == h;
    var g := Hit(xs).value;
    var j :| 0 <= j < |xs| && xs[j] == g;
    assert g.t <= xs[i].t && h.t <= xs[j].t;
  }
}
