/** RGB colours (src/image/color.rs and its near-identical copy
    src/canvas/color.rs). A colour wraps a tuple whose `w` is 0; the three
    channels are `x`, `y` and `z`. The arithmetic is the tuple's, except that
    the product of two colours is built afresh from the channel products. */
module Colors {
  import T = Tuples
  import FC = FloatCompare

  datatype Color = Color(data: T.Tuple)

  function R(c: Color): real { c.data.x }
  function G(c: Color): real { c.data.y }
  function B(c: Color): real { c.data.z }

  /** The internal `w` of every colour the constructor makes. */
  predicate Valid(c: Color)
  {
    c.data.w == 0.0
  }

  /** `Color::new`: the channels read back unchanged. */
  function New(r: real, g: real, b: real): (c: Color)
    ensures R(c) == r && G(c) == g && B(c) == b
    ensures Valid(c)
  {
    Color(T.Tuple(r, g, b, 0.0))
  }

  const White: Color := New(1.0, 1.0, 1.0)
  const Red: Color := New(1.0, 0.0, 0.0)
  const Green: Color := New(0.0, 1.0, 0.0)
  const Blue: Color := New(0.0, 0.0, 1.0)
  const Black: Color := New(0.0, 0.0, 0.0)

  /** `PartialEq for Color`: approximate equality of the wrapped tuples. */
  predicate Eq(a: Color, b: Color)
  {
    T.Eq(a.data, b.data)
  }

  /** For colours made by the constructor, equality compares the three
      channels with `is_same`; a colour equals itself. */
  lemma EqChannels(a: Color, b: Color)
    requires Valid(a) && Valid(b)
    ensures Eq(a, b) <==> FC.IsSame(R(a), R(b)) && FC.IsSame(G(a), G(b)) && FC.IsSame(B(a), B(b))
    ensures Eq(a, a)
  {
  }

  /** `Add for Color`: channelwise sum. */
  function Add(a: Color, b: Color): (r: Color)
    ensures Valid(a) && Valid(b) ==> Valid(r)
  {
    Color(T.Add(a.data, b.data))
  }

  /** `Sub for Color`: channelwise difference; adding `b` back gives `a`. */
  function Sub(a: Color, b: Color): (r: Color)
    ensures Valid(a) && Valid(b) ==> Valid(r)
    ensures Add(r, b) == a
  {
    Color(T.Sub(a.data, b.data))
  }

  /** `Mul<f64> for Color`: every channel scaled by `k`. */
  function Scale(a: Color, k: real): (r: Color)
    ensures Valid(a) ==> Valid(r)
    ensures k == 1.0 ==> r == a
    ensures k == 0.0 && Valid(a) ==> r == Black
  {
    Color(T.Scale(a.data, k))
  }

  /** `Mul for Color`: the channelwise (Hadamard) product. */
  function Mul(a: Color, b: Color): (r: Color)
    ensures Valid(r)
  {
    New(R(a) * R(b), G(a) * G(b), B(a) * B(b))
  }

  /** White is the unit of the channelwise product and black absorbs it; the
      product does not depend on the order of its operands. */
  lemma MulLaws(a: Color, b: Color)
    ensures Valid(a) ==> Mul(a, White) == a && Mul(White, a) == a
    ensures Mul(a, Black) == Black
    ensures Mul(a, b) == Mul(b, a)
  {
  }

  /** Sum and difference undo each other, and scaling distributes over the
      sum. */
  lemma AddSubLaws(a: Color, b: Color, k: real)
    ensures Sub(Add(a, b), b) == a
    ensures Scale(Add(a, b), k) == Add(Scale(a, k), Scale(b, k))
  {
  }

  /** The largest `u32`. */
  const U32Max: int := 0xFFFF_FFFF

  /** Rust's `as u32` on a float: truncation toward zero, saturating at both
      ends of the range (NaN, which maps to 0, has no real counterpart). */
  function CastU32(x: real): (n: int)
    ensures 0 <= n <= U32Max
    ensures 0.0 <= x < U32Max as real ==> n == x.Floor
  {
    if x <= 0.0 then 0 else if x >= U32Max as real then U32Max else x.Floor
  }

  /** 2 to the power `k`. */
  function Pow2(k: nat): (p: nat)
    ensures p >= 1
  {
    if k == 0 then 1 else 2 * Pow2(k - 1)
  }

  /** `u32` words are modelled as integers in [0, 2^32); this is 2^32. */
  const Two32: int := 0x1_0000_0000

  /** Rust's `x << k` on a `u32`: the bits shifted past bit 31 are lost. */
  function Shl(x: nat, k: nat): (r: nat)
    ensures r < Two32
    ensures x * Pow2(k) < Two32 ==> r == x * Pow2(k)
  {
    (x * Pow2(k)) % Two32
  }

  /** Bitwise OR of two naturals, bit by bit from the lowest: it is at least
      each operand and at most their sum. */
  function Or(a: nat, b: nat): (r: nat)
    ensures a <= r && b <= r && r <= a + b
    decreases a
  {
    if a == 0 then b
    else if b == 0 then a
    else 2 * Or(a / 2, b / 2) + (if a % 2 == 1 || b % 2 == 1 then 1 else 0)
  }

  /** OR-ing a value below 2^k into a multiple of 2^k adds it: the bits do
      not overlap. */
  lemma {:induction false} OrDisjoint(a: nat, b: nat, k: nat)
    requires b < Pow2(k)
    ensures Or(a * Pow2(k), b) == a * Pow2(k) + b
  {
    if k == 0 {
      assert b == 0;
    } else if a == 0 || b == 0 {
    } else {
      var h := a * Pow2(k - 1);
      assert a * Pow2(k) == 2 * h;
      assert (2 * h) / 2 == h && (2 * h) % 2 == 0;
      OrDisjoint(a, b / 2, k - 1);
    }
  }

  /** The `u32` value `to_u32` shifts into place for a channel. */
  function Channel32(v: real): nat
  {
    CastU32(255.0 * v)
  }

  /** `Color::to_u32` (src/image/color.rs only): each channel times 255 cast
      to `u32`, combined as `r << 16 | g << 8 | b` in 32-bit arithmetic. */
  function ToU32(c: Color): nat
  {
    Or(Or(Shl(Channel32(R(c)), 16), Shl(Channel32(G(c)), 8)), Channel32(B(c)))
  }

  /** A byte-sized channel value: a real in [0, 1] scaled to 0..255. */
  function ChannelByte(v: real): (n: int)
    requires 0.0 <= v <= 1.0
    ensures 0 <= n <= 255
    ensures n as real <= 255.0 * v < n as real + 1.0
  {
    ScaledBound(v);
    (255.0 * v).Floor
  }

  lemma ScaledBound(v: real)
    requires 0.0 <= v <= 1.0
    ensures 0.0 <= 255.0 * v <= 255.0
  {
  }

  /** Byte `k` (0 for the lowest eight bits) of a word. */
  function ByteOf(x: nat, k: nat): nat
    requires k < 4
  {
    if k == 0 then x % 256
    else if k == 1 then (x / 256) % 256
    else if k == 2 then (x / 65536) % 256
    else (x / 16777216) % 256
  }

  /** Three bytes shifted into bytes 2, 1 and 0 of a word unpack again, and
      the top byte stays 0. */
  lemma {:induction false} PackBytes(r: nat, g: nat, b: nat)
    requires r < 256 && g < 256 && b < 256
    ensures ByteOf(Or(Or(Shl(r, 16), Shl(g, 8)), b), 2) == r
    ensures ByteOf(Or(Or(Shl(r, 16), Shl(g, 8)), b), 1) == g
    ensures ByteOf(Or(Or(Shl(r, 16), Shl(g, 8)), b), 0) == b
    ensures ByteOf(Or(Or(Shl(r, 16), Shl(g, 8)), b), 3) == 0
  {
    assert Pow2(8) == 256 && Pow2(16) == 65536;
    OrDisjoint(r, g * 256, 16);
    var rg := r * 256 + g;
    assert Or(Shl(r, 16), Shl(g, 8)) == rg * Pow2(8);
    OrDisjoint(rg, b, 8);
    var w := rg * 256 + b;
    DivMod(rg, b, 256);
    DivMod(r, g, 256);
    DivMod(r, g * 256 + b, 65536);
    DivMod(0, w, 16777216);
  }

  /** Division by `d` recovers the quotient and remainder of `q * d + m`. */
  lemma DivMod(q: int, m: int, d: int)
    requires 0 <= m < d
    ensures (q * d + m) / d == q && (q * d + m) % d == m
  {
    var x := q * d + m;
    var q2, m2 := x / d, x % d;
    assert (q2 - q) * d == m - m2;
    if q2 > q {
      MulAtLeast(q2 - q, d);
    } else if q2 < q {
      MulAtLeast(q - q2, d);
    }
  }

  lemma MulAtLeast(k: int, d: int)
    requires k >= 1 && d > 0
    ensures k * d >= d
  {
  }

  /** The channels `to_u32` packs, each below 256 when the channel is within
      [0, 1]: the channel's byte. */
  lemma ChannelFits(v: real)
    requires 0.0 <= v <= 1.0
    ensures Channel32(v) == ChannelByte(v)
  {
  }

  /** For channels within [0, 1], `to_u32` packs the three channel bytes
      into the low 24 bits, red highest: unpacking the word recovers each
      byte, and the top byte stays 0. */
  lemma {:induction false} ToU32Packs(c: Color)
    requires 0.0 <= R(c) <= 1.0 && 0.0 <= G(c) <= 1.0 && 0.0 <= B(c) <= 1.0
    ensures ByteOf(ToU32(c), 2) == ChannelByte(R(c))
    ensures ByteOf(ToU32(c), 1) == ChannelByte(G(c))
    ensures ByteOf(ToU32(c), 0) == ChannelByte(B(c))
    ensures ByteOf(ToU32(c), 3) == 0
  {
    ChannelFits(R(c));
    ChannelFits(G(c));
    ChannelFits(B(c));
    PackBytes(Channel32(R(c)), Channel32(G(c)), Channel32(B(c)));
  }

  /** A channel above 1 is not clamped: green 2.0 scales to 510, whose
      ninth bit lands in the red byte. */
  lemma ToU32Spills()
    ensures ByteOf(ToU32(New(0.0, 2.0, 0.0)), 2) == 1
    ensures ByteOf(ToU32(New(0.0, 2.0, 0.0)), 1) == 0xFE
  {
    assert Channel32(2.0) == 510;
    assert Channel32(0.0) == 0;
    assert Pow2(8) == 256 && Pow2(16) == 65536;
    assert ToU32(New(0.0, 2.0, 0.0)) == 510 * 256;
  }

  /** The channel clamped into [0, 1], as `min(1.0).max(0.0)` does. */
  function Clamp(v: real): (r: real)
    ensures 0.0 <= r <= 1.0
    ensures 0.0 <= v <= 1.0 ==> r == v
    ensures v < 0.0 ==> r == 0.0
    ensures v > 1.0 ==> r == 1.0
  {
    var upper := if v < 1.0 then v else 1.0;
    if upper > 0.0 then upper else 0.0
  }

  /** `to_u32` with every channel clamped first, as the save buffer does. */
  function ToU32Clamped(c: Color): nat
  {
    ToU32(New(Clamp(R(c)), Clamp(G(c)), Clamp(B(c))))
  }

  /** With clamping, every colour packs without spilling: each byte is the
      clamped channel's byte. */
  lemma ToU32ClampedPacks(c: Color)
    ensures ByteOf(ToU32Clamped(c), 2) == ChannelByte(Clamp(R(c)))
    ensures ByteOf(ToU32Clamped(c), 1) == ChannelByte(Clamp(G(c)))
    ensures ByteOf(ToU32Clamped(c), 0) == ChannelByte(Clamp(B(c)))
    ensures ByteOf(ToU32Clamped(c), 3) == 0
  {
    ToU32Packs(New(Clamp(R(c)), Clamp(G(c)), Clamp(B(c))));
  }

  /** The cases of the source's unit tests. */
  lemma ColorExamples()
    ensures R(New(-0.5, 0.4, 1.7)) == -0.5 && G(New(-0.5, 0.4, 1.7)) == 0.4 && B(New(-0.5, 0.4, 1.7)) == 1.7
    ensures Eq(New(-0.5, 0.4, 1.7), New(-0.5, 0.4, 1.7))
  {
    EqChannels(New(-0.5, 0.4, 1.7), New(-0.5, 0.4, 1.7));
  }

  lemma AddExample()
    ensures Add(New(0.9, 0.6, 0.75), New(0.7, 0.1, 0.25)).data == T.Tuple(1.6, 0.7, 1.0, 0.0)
  {
  }

  lemma SubExample()
    ensures Sub(New(0.9, 0.6, 0.75), New(0.7, 0.1, 0.25)).data == T.Tuple(0.2, 0.5, 0.5, 0.0)
  {
  }

  lemma ScaleExample()
    ensures Scale(New(0.2, 0.3, 0.4), 2.0).data == T.Tuple(0.4, 0.6, 0.8, 0.0)
  {
  }

  lemma MulExample()
    ensures Mul(New(1.0, 0.2, 0.4), New(0.9, 1.0, 0.1)).data == T.Tuple(0.9, 0.2, 0.04, 0.0)
  {
  }
}
