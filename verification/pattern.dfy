/** Stripe patterns (src/primitives/pattern.rs): two colours alternating in
    unit-wide bands along x. The band index is `floor(x)` cast to a 32-bit
    integer, which in Rust saturates at the bounds, and its parity is read
    with Rust's remainder, which takes the sign of the dividend. */
module Patterns {
  import C = Colors
  import P = Points

  datatype StripePattern = StripePattern(col1: C.Color, col2: C.Color)

  /** `StripePattern::new`: the two colours read back in order. */
  function New(col1: C.Color, col2: C.Color): (p: StripePattern)
    ensures p.col1 == col1 && p.col2 == col2
  {
    StripePattern(col1, col2)
  }

  const I32Min: int := -0x8000_0000
  const I32Max: int := 0x7FFF_FFFF

  /** Rust's `as i32` from a float that is already integral: values beyond
      the range stick at its ends. */
  function SaturateI32(n: int): (r: int)
    ensures I32Min <= r <= I32Max
  {
    if n < I32Min then I32Min else if n > I32Max then I32Max else n
  }

  /** Rust's `%` on integers: truncating division, so the remainder has the
      sign of the dividend and the magnitude of the Euclidean one. */
  function TruncRem(a: int, b: int): (r: int)
    requires b != 0
    ensures -Abs(b) < r < Abs(b)
    ensures a >= 0 ==> r >= 0
    ensures a <= 0 ==> r <= 0
  {
    if a >= 0 then a % Abs(b) else -((-a) % Abs(b))
  }

  function Abs(n: int): int
  {
    if n < 0 then -n else n
  }

  /** `StripePattern::color_at`: the first colour on bands whose index has
      a zero remainder by 2, the second otherwise. */
  function ColorAt(p: StripePattern, point: P.Point): (c: C.Color)
    ensures c == p.col1 || c == p.col2
  {
    if TruncRem(SaturateI32(P.X(point).Floor), 2) == 0 then p.col1 else p.col2
  }

  /** Rust's remainder by 2 is zero exactly for the even numbers, whatever
      their sign; for odd negative numbers it is -1. */
  lemma TruncRemTwo(n: int)
    ensures TruncRem(n, 2) == 0 <==> n % 2 == 0
    ensures n < 0 && n % 2 == 1 ==> TruncRem(n, 2) == -1
  {
    if n < 0 {
      assert (-n) % 2 == 0 <==> n % 2 == 0 by {
        NegParity(n);
      }
    }
  }

  /** A number and its negation have the same parity. */
  lemma NegParity(n: int)
    ensures (-n) % 2 == n % 2
  {
    var q := n / 2;
    assert n == 2 * q + n % 2;
    if n % 2 == 0 {
      assert -n == 2 * (-q);
    } else {
      assert -n == 2 * (-q - 1) + 1;
    }
  }

  /** Within the range of `i32` the stripe is the first colour exactly on
      the even bands `floor(x)`: the cast changes nothing and the truncating
      remainder agrees with the mathematical parity, negative bands
      included. */
  lemma ColorAtParity(p: StripePattern, point: P.Point)
    requires I32Min <= P.X(point).Floor <= I32Max
    ensures ColorAt(p, point) == if P.X(point).Floor % 2 == 0 then p.col1 else p.col2
  {
    TruncRemTwo(P.X(point).Floor);
  }

  /** Beyond the range of `i32` the cast saturates, so every band above it
      takes the colour of the odd band `i32::MAX` and every band below it
      the colour of the even band `i32::MIN`. */
  lemma ColorAtSaturated(p: StripePattern, point: P.Point)
    ensures P.X(point).Floor > I32Max ==> ColorAt(p, point) == p.col2
    ensures P.X(point).Floor < I32Min ==> ColorAt(p, point) == p.col1
  {
    TruncRemTwo(I32Max);
    TruncRemTwo(I32Min);
  }

  /** Only x matters: two points with the same x get the same colour,
      whatever their y and z. */
  lemma ColorAtOnlyX(p: StripePattern, a: P.Point, b: P.Point)
    requires P.X(a) == P.X(b)
    ensures ColorAt(p, a) == ColorAt(p, b)
  {
  }

  /** Neighbouring bands inside the `i32` range alternate, and bands two
      apart agree. */
  lemma {:induction false} ColorAtAlternates(p: StripePattern, a: P.Point, b: P.Point)
    requires I32Min <= P.X(a).Floor && P.X(b).Floor <= I32Max
    requires P.X(b).Floor == P.X(a).Floor + 1 || P.X(b).Floor == P.X(a).Floor + 2
    ensures P.X(b).Floor == P.X(a).Floor + 2 ==> ColorAt(p, b) == ColorAt(p, a)
    ensures P.X(b).Floor == P.X(a).Floor + 1 ==> {ColorAt(p, a), ColorAt(p, b)} == {p.col1, p.col2}
  {
    ColorAtParity(p, a);
    ColorAtParity(p, b);
  }

  /** The source's unit test: the origin is on band 0, the first colour. */
  lemma OriginExample(p: StripePattern)
    ensures ColorAt(p, P.New(0.0, 0.0, 0.0)) == p.col1
  {
    TruncRemTwo(0);
  }

  /** Just left of the origin `floor(x)` is -1, whose Rust remainder by 2
      is -1, so the band takes the second colour. */
  lemma JustBelowZeroExample(p: StripePattern, point: P.Point)
    requires -1.0 <= P.X(point) < 0.0
    ensures ColorAt(p, point) == p.col2
  {
    assert P.X(point).Floor == -1;
    TruncRemTwo(-1);
  }
}
