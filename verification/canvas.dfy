/** The pixel buffer (src/image/canvas.rs and its copy src/canvas/canvas.rs):
    a width, a height and `width * height` colours stored row by row, pixel
    (x, y) at index `x + y * width`. Integer arithmetic is on `i32`; an
    overflow is treated as a panic (the behaviour of a debug build), and so
    is every out-of-bounds access. A panic is `None`. */
module Canvases {
  import opened Wrappers
  import C = Colors

  const I32Min: int := -0x8000_0000
  const I32Max: int := 0x7FFF_FFFF

  predicate IsI32(n: int)
  {
    I32Min <= n <= I32Max
  }

  datatype Canvas = Canvas(width: int, height: int, pixels: seq<C.Color>)

  /** What every canvas `new` builds satisfies: `i32` dimensions and one
      colour per pixel. */
  predicate Valid(cv: Canvas)
  {
    IsI32(cv.width) && IsI32(cv.height) && |cv.pixels| == cv.width * cv.height
    && cv.width * cv.height <= I32Max
  }

  /** `Canvas::new`: `width * height` black pixels. The product must be an
      `i32` (else the multiplication overflows) and non-negative (else the
      cast to `usize` asks for an impossible allocation). */
  function New(width: int, height: int): (r: Option<Canvas>)
    requires IsI32(width) && IsI32(height)
    ensures r.Some? <==> 0 <= width * height <= I32Max
    ensures r.Some? ==> Valid(r.value) && r.value.width == width && r.value.height == height
    ensures r.Some? ==> forall i :: 0 <= i < |r.value.pixels| ==> r.value.pixels[i] == C.Black
  {
    var n := width * height;
    if 0 <= n <= I32Max then Some(Canvas(width, height, seq(n, _ => C.Black))) else None
  }

  /** `coord_to_index` before its cast: `x + y * width` in `i32`, `None` on
      overflow. The value may be negative. */
  function CoordToIndex(cv: Canvas, x: int, y: int): (r: Option<int>)
    ensures r.Some? ==> IsI32(r.value) && r.value == x + y * cv.width
  {
    var p := y * cv.width;
    if !IsI32(p) || !IsI32(x + p) then None else Some(x + p)
  }

  /** The index as the source uses it: a negative `i32` cast to `usize`
      lands far beyond any vector, so only indices in [0, |pixels|) reach a
      pixel. */
  function Index(cv: Canvas, x: int, y: int): (r: Option<nat>)
    ensures r.Some? <==> CoordToIndex(cv, x, y).Some? && 0 <= CoordToIndex(cv, x, y).value < |cv.pixels|
    ensures r.Some? ==> r.value == x + y * cv.width
  {
    match CoordToIndex(cv, x, y)
    case None => None
    case Some(i) => if 0 <= i < |cv.pixels| then Some(i) else None
  }

  /** `pixel_at` of src/canvas/canvas.rs: plain vector indexing. */
  function PixelAt(cv: Canvas, x: int, y: int): (r: Option<C.Color>)
    ensures r.Some? <==> Index(cv, x, y).Some?
    ensures r.Some? ==> r.value == cv.pixels[Index(cv, x, y).value]
  {
    match Index(cv, x, y)
    case None => None
    case Some(i) => Some(cv.pixels[i])
  }

  /** `pixel_at` of src/image/canvas.rs: it panics itself when the index,
      cast to `usize`, is at least `width * height`, before indexing. */
  function GuardedPixelAt(cv: Canvas, x: int, y: int): Option<C.Color>
    requires Valid(cv)
  {
    match CoordToIndex(cv, x, y)
    case None => None
    case Some(i) =>
      if i < 0 || i >= cv.width * cv.height then None
      else Some(cv.pixels[i])
  }

  /** The explicit guard of the image canvas panics exactly where indexing
      would, so both `pixel_at`s behave alike. */
  lemma GuardedPixelAtAgrees(cv: Canvas, x: int, y: int)
    requires Valid(cv)
    ensures GuardedPixelAt(cv, x, y) == PixelAt(cv, x, y)
  {
  }

  /** `write_pixel`: the canvas with one colour replaced, or a panic where
      `pixel_at` would panic too. */
  function WritePixel(cv: Canvas, x: int, y: int, col: C.Color): (r: Option<Canvas>)
    ensures r.Some? <==> PixelAt(cv, x, y).Some?
    ensures r.Some? ==> r.value.width == cv.width && r.value.height == cv.height
    ensures r.Some? ==> |r.value.pixels| == |cv.pixels|
    ensures Valid(cv) && r.Some? ==> Valid(r.value)
  {
    match Index(cv, x, y)
    case None => None
    case Some(i) => Some(cv.(pixels := cv.pixels[i := col]))
  }

  /** Coordinates inside the canvas. */
  predicate InRange(cv: Canvas, x: int, y: int)
  {
    0 <= x < cv.width && 0 <= y < cv.height
  }

  /** Inside the canvas, neither the index arithmetic overflows nor the
      index leaves the pixel vector: reading and writing succeed. */
  lemma {:induction false} InRangeIndex(cv: Canvas, x: int, y: int)
    requires Valid(cv) && InRange(cv, x, y)
    ensures Index(cv, x, y) == Some(x + y * cv.width)
    ensures PixelAt(cv, x, y).Some?
  {
    RowBound(cv.width, cv.height, x, y);
  }

  /** `x + y * w` stays below `w * h` for a coordinate inside a w×h grid. */
  lemma RowBound(w: int, h: int, x: int, y: int)
    requires 0 <= x < w && 0 <= y < h
    ensures 0 <= y * w <= x + y * w < w * h
  {
    assert y * w <= (h - 1) * w;
    assert (h - 1) * w + w == w * h;
  }

  /** Two coordinates inside the grid with the same index are the same
      coordinate: the row-major layout is injective. */
  lemma {:induction false} IndexInjective(w: int, x1: int, y1: int, x2: int, y2: int)
    requires 0 <= x1 < w && 0 <= x2 < w && 0 <= y1 && 0 <= y2
    requires x1 + y1 * w == x2 + y2 * w
    ensures x1 == x2 && y1 == y2
  {
    if y1 < y2 {
      RowsApart(w, y1, y2);
    } else if y2 < y1 {
      RowsApart(w, y2, y1);
    }
  }

  /** Distinct rows start at least a row's width apart. */
  lemma RowsApart(w: int, a: int, b: int)
    requires w >= 0 && a < b
    ensures b * w - a * w >= w
  {
    var k := b - a;
    assert b * w == (a + k) * w == a * w + k * w;
    assert k * w >= w by { MulAtLeast(k, w); }
  }

  lemma MulAtLeast(k: int, w: int)
    requires k >= 1 && w >= 0
    ensures k * w >= w
  {
  }

  /** Reading a pixel back after writing it gives the colour written. */
  lemma WriteThenRead(cv: Canvas, x: int, y: int, col: C.Color)
    requires WritePixel(cv, x, y, col).Some?
    ensures PixelAt(WritePixel(cv, x, y, col).value, x, y) == Some(col)
  {
  }

  /** Writing a pixel inside the canvas leaves every other pixel inside the
      canvas as it was. */
  lemma {:induction false} WriteFrame(cv: Canvas, x: int, y: int, col: C.Color, x2: int, y2: int)
    requires Valid(cv) && InRange(cv, x, y) && InRange(cv, x2, y2)
    requires x != x2 || y != y2
    ensures WritePixel(cv, x, y, col).Some?
    ensures PixelAt(WritePixel(cv, x, y, col).value, x2, y2) == PixelAt(cv, x2, y2)
  {
    InRangeIndex(cv, x, y);
    InRangeIndex(cv, x2, y2);
    if x + y * cv.width == x2 + y2 * cv.width {
      IndexInjective(cv.width, x, y, x2, y2);
    }
    var after := WritePixel(cv, x, y, col).value;
    assert after.width == cv.width && |after.pixels| == |cv.pixels|;
    assert Index(after, x2, y2) == Index(cv, x2, y2);
  }

  /** A fresh canvas is black everywhere inside it. */
  lemma NewIsBlack(width: int, height: int, x: int, y: int)
    requires IsI32(width) && IsI32(height) && 0 <= width * height <= I32Max
    requires 0 <= x < width && 0 <= y < height
    ensures PixelAt(New(width, height).value, x, y) == Some(C.Black)
  {
    InRangeIndex(New(width, height).value, x, y);
  }

  /** Only the combined index is checked, not each coordinate: x equal to
      the width reads the first pixel of the next row. */
  lemma {:induction false} RowWrapAround(cv: Canvas, y: int)
    requires Valid(cv) && cv.width > 0 && 0 <= y && y + 1 < cv.height
    ensures PixelAt(cv, cv.width, y) == PixelAt(cv, 0, y + 1)
    ensures PixelAt(cv, cv.width, y).Some?
  {
    InRangeIndex(cv, 0, y + 1);
    assert cv.width + y * cv.width == 0 + (y + 1) * cv.width;
  }

  // ---------------------------------------------------------------------
  // The save buffer

  /** A byte, the element type of the save buffer. */
  type Byte = n: int | 0 <= n < 256

  /** One pixel's four bytes: each channel clamped to [0, 1], times 255,
      truncated; then an opaque alpha. */
  function PixelBytes(c: C.Color): (r: seq<Byte>)
    ensures |r| == 4 && r[3] == 255
    ensures r[0] == C.ChannelByte(C.Clamp(C.R(c)))
    ensures r[1] == C.ChannelByte(C.Clamp(C.G(c)))
    ensures r[2] == C.ChannelByte(C.Clamp(C.B(c)))
  {
    [C.ChannelByte(C.Clamp(C.R(c))), C.ChannelByte(C.Clamp(C.G(c))), C.ChannelByte(C.Clamp(C.B(c))), 255]
  }

  /** Channel bytes saturate: a channel of 1 or more gives 255 and one of 0
      or less gives 0. */
  lemma PixelBytesSaturate(v: real)
    ensures v >= 1.0 ==> C.ChannelByte(C.Clamp(v)) == 255
    ensures v <= 0.0 ==> C.ChannelByte(C.Clamp(v)) == 0
  {
  }

  /** The buffer holds pixel `j`'s bytes at positions 4j .. 4j+3. */
  predicate Encodes(buf: seq<Byte>, j: nat, c: C.Color)
  {
    4 * j + 4 <= |buf| && buf[4 * j..4 * j + 4] == PixelBytes(c)
  }

  /** The save buffer, pixel by pixel in storage order. */
  function SaveBytes(pixels: seq<C.Color>): (r: seq<Byte>)
    ensures |r| == 4 * |pixels|
  {
    if pixels == [] then [] else SaveBytes(pixels[..|pixels| - 1]) + PixelBytes(pixels[|pixels| - 1])
  }

  /** The save buffer puts every pixel's bytes at four times its index. */
  lemma {:induction false} SaveBytesEncodes(pixels: seq<C.Color>)
    ensures forall j :: 0 <= j < |pixels| ==> Encodes(SaveBytes(pixels), j, pixels[j])
  {
    if pixels != [] {
      var init := pixels[..|pixels| - 1];
      SaveBytesEncodes(init);
      var buf := SaveBytes(pixels);
      assert buf == SaveBytes(init) + PixelBytes(pixels[|pixels| - 1]);
      forall j | 0 <= j < |pixels|
        ensures Encodes(buf, j, pixels[j])
      {
        if j < |init| {
          assert Encodes(SaveBytes(init), j, init[j]);
          assert buf[4 * j..4 * j + 4] == SaveBytes(init)[4 * j..4 * j + 4];
        } else {
          assert buf[4 * j..4 * j + 4] == PixelBytes(pixels[j]);
        }
      }
    }
  }

  /** `get_save_buffer`: the pixels' bytes in storage order. The capacity it
      reserves, `width * height * 4`, is computed in `i32` and panics when
      it overflows. */
  method GetSaveBuffer(cv: Canvas) returns (r: Option<seq<Byte>>)
    requires Valid(cv)
    ensures r.None? <==> cv.width * cv.height * 4 > I32Max
    ensures r.Some? ==> |r.value| == 4 * cv.width * cv.height
    ensures r.Some? ==> forall j :: 0 <= j < |cv.pixels| ==> Encodes(r.value, j, cv.pixels[j])
    ensures r.Some? ==> r.value == SaveBytes(cv.pixels)
  {
    if cv.width * cv.height * 4 > I32Max {
      return None;
    }
    var buf: seq<Byte> := [];
    for i := 0 to |cv.pixels|
      invariant |buf| == 4 * i
      invariant forall j :: 0 <= j < i ==> Encodes(buf, j, cv.pixels[j])
    {
      var bytes := PixelBytes(cv.pixels[i]);
      forall j | 0 <= j < i
        ensures Encodes(buf + bytes, j, cv.pixels[j])
      {
        assert (buf + bytes)[4 * j..4 * j + 4] == buf[4 * j..4 * j + 4];
      }
      assert (buf + bytes)[4 * i..4 * i + 4] == bytes;
      buf := buf + bytes;
    }
    SaveBytesEncodes(cv.pixels);
    EncodesUnique(buf, SaveBytes(cv.pixels), cv.pixels);
    return Some(buf);
  }

  /** Two byte buffers encoding the same pixels are the same buffer: the
      method's result is exactly `SaveBytes`. */
  lemma {:induction false} EncodesUnique(a: seq<Byte>, b: seq<Byte>, pixels: seq<C.Color>)
    requires |a| == 4 * |pixels| && |b| == 4 * |pixels|
    requires forall j :: 0 <= j < |pixels| ==> Encodes(a, j, pixels[j])
    requires forall j :: 0 <= j < |pixels| ==> Encodes(b, j, pixels[j])
    ensures a == b
  {
    forall k | 0 <= k < |a|
      ensures a[k] == b[k]
    {
      var j := k / 4;
      assert Encodes(a, j, pixels[j]) && Encodes(b, j, pixels[j]);
      assert a[k] == a[4 * j..4 * j + 4][k - 4 * j];
      assert b[k] == b[4 * j..4 * j + 4][k - 4 * j];
    }
  }

  /** The case of the source's unit tests: a 2×2 canvas with red on its
      diagonal saves as red, black, black, red, each with alpha 255. */
  lemma SaveExample(cv: Canvas)
    requires cv.pixels == [C.Red, C.Black, C.Black, C.Red]
    ensures SaveBytes(cv.pixels) == [255, 0, 0, 255, 0, 0, 0, 255, 0, 0, 0, 255, 255, 0, 0, 255]
  {
    var red, black := PixelBytes(C.Red), PixelBytes(C.Black);
    assert red == [255, 0, 0, 255];
    assert black == [0, 0, 0, 255];
    assert SaveBytes([]) == [];
    SaveBytesAppend([], C.Red);
    assert [] + [C.Red] == [C.Red];
    SaveBytesAppend([C.Red], C.Black);
    assert [C.Red] + [C.Black] == [C.Red, C.Black];
    SaveBytesAppend([C.Red, C.Black], C.Black);
    assert [C.Red, C.Black] + [C.Black] == [C.Red, C.Black, C.Black];
    SaveBytesAppend([C.Red, C.Black, C.Black], C.Red);
    assert [C.Red, C.Black, C.Black] + [C.Red] == cv.pixels;
    assert SaveBytes(cv.pixels) == [] + red + black + black + red;
  }

  lemma SaveBytesAppend(init: seq<C.Color>, c: C.Color)
    ensures SaveBytes(init + [c]) == SaveBytes(init) + PixelBytes(c)
  {
    assert (init + [c])[..|init|] == init;
  }

  /** Writing red at (0, 0) and (1, 1) of a fresh 2×2 canvas gives the
      pixels of that test. */
  lemma {:induction false} DiagonalExample()
    ensures New(2, 2).Some?
    ensures WritePixel(New(2, 2).value, 0, 0, C.Red).Some?
    ensures WritePixel(WritePixel(New(2, 2).value, 0, 0, C.Red).value, 1, 1, C.Red).Some?
    ensures WritePixel(WritePixel(New(2, 2).value, 0, 0, C.Red).value, 1, 1, C.Red).value.pixels
            == [C.Red, C.Black, C.Black, C.Red]
  {
    var c0 := New(2, 2).value;
    InRangeIndex(c0, 0, 0);
    var c1 := WritePixel(c0, 0, 0, C.Red).value;
    InRangeIndex(c1, 1, 1);
    var c2 := WritePixel(c1, 1, 1, C.Red).value;
    assert c2.pixels == c0.pixels[0 := C.Red][3 := C.Red];
  }

  /** Write-then-read on the 10×20 canvas of the source's tests. */
  lemma WriteReadExample()
    ensures New(10, 20).Some? && New(10, 20).value.width == 10 && New(10, 20).value.height == 20
    ensures WritePixel(New(10, 20).value, 2, 3, C.Red).Some?
    ensures PixelAt(WritePixel(New(10, 20).value, 2, 3, C.Red).value, 2, 3) == Some(C.Red)
  {
    InRangeIndex(New(10, 20).value, 2, 3);
    WriteThenRead(New(10, 20).value, 2, 3, C.Red);
  }
}
