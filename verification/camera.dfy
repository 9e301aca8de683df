/** The camera (src/primitives/camera.rs): a canvas of `width` by `height`
    pixels one unit in front of the eye, looking down -z in camera space,
    placed in the world by a transformation. The tangent of half the field
    of view and the `normalize` of the ray direction are passed in. Width
    and height are `i32`; converting them to `f64` is exact. */
module Cameras {
  import opened Wrappers
  import T = Tuples
  import V = Vectors
  import P = Points
  import M = Matrix4x4
  import TR = Transforms
  import C = Colors
  import CV = Canvases
  import R = Rays
  import W = Worlds
  import I = Intersections

  datatype Camera = Camera(width: int, height: int, fov: real, transform: M.Matrix,
                           pixelSize: real, halfWidth: real, halfHeight: real,
                           transformInverse: M.Matrix)

  /** The pixel geometry `Camera::new` computes from the size and the half
      view. */
  predicate Sized(cam: Camera, halfView: real)
  {
    && cam.width != 0 && cam.height != 0
    && (cam.pixelSize, cam.halfWidth, cam.halfHeight) == PixelSizes(cam.width, cam.height, halfView)
  }

  /** The stored inverse undoes the transformation on either side. */
  predicate Inverts(cam: Camera)
  {
    M.Mul(cam.transform, cam.transformInverse) == M.Identity()
    && M.Mul(cam.transformInverse, cam.transform) == M.Identity()
  }

  // ---------------------------------------------------------------------
  // Pixel geometry

  /** `calculate_pixel_size`: the half view spans the longer side; the
      shorter side is scaled by the aspect ratio. Returns the pixel size and
      the half width and half height of the canvas. A zero dimension
      divides by zero, which gives an IEEE infinity or NaN in the source and
      is outside the model. */
  function PixelSizes(width: int, height: int, halfView: real): (real, real, real)
    requires width != 0 && height != 0
  {
    var aspect := width as real / height as real;
    var halfWidth := if aspect >= 1.0 then halfView else halfView * aspect;
    var halfHeight := if aspect >= 1.0 then halfView / aspect else halfView;
    ((halfWidth * 2.0) / width as real, halfWidth, halfHeight)
  }

  /** For a canvas of positive size the pixel size is the full view `2 *
      half_view` spread over the longer side, and the pixels tile the canvas
      exactly: the half width is half of `width` pixels and the half height
      half of `height` pixels, whichever side is longer. */
  lemma PixelSizeMeaning(width: int, height: int, halfView: real)
    requires width > 0 && height > 0
    ensures var (size, hw, hh) := PixelSizes(width, height, halfView);
            && size == 2.0 * halfView / (if width >= height then width else height) as real
            && hw == size * width as real / 2.0
            && hh == size * height as real / 2.0
  {
    var w, h := width as real, height as real;
    var aspect := w / h;
    assert aspect * h == w;
    if w >= h {
      assert aspect >= 1.0;
      WideSides(w, h, aspect, halfView);
    } else {
      assert aspect < 1.0;
      TallSides(w, h, aspect, halfView);
    }
  }

  /** The branch `aspect >= 1` over plain numbers. */
  lemma WideSides(w: real, h: real, aspect: real, hv: real)
    requires w > 0.0 && h > 0.0 && aspect * h == w
    ensures hv * 2.0 / w == 2.0 * hv / w
    ensures hv == (hv * 2.0 / w) * w / 2.0
    ensures hv / aspect == (hv * 2.0 / w) * h / 2.0
  {
    assert aspect > 0.0;
    assert (hv * 2.0 / w) * w == hv * 2.0;
    assert (hv * 2.0 / w) * h / 2.0 == hv * h / w;
    assert hv / aspect == hv * h / w by {
      assert (hv * h / w) * aspect == hv * h * aspect / w;
      assert hv * h * aspect / w == hv * w / w;
    }
  }

  /** The branch `aspect < 1` over plain numbers. */
  lemma TallSides(w: real, h: real, aspect: real, hv: real)
    requires w > 0.0 && h > 0.0 && aspect * h == w
    ensures (hv * aspect * 2.0) / w == 2.0 * hv / h
    ensures hv * aspect == ((hv * aspect * 2.0) / w) * w / 2.0
    ensures hv == ((hv * aspect * 2.0) / w) * h / 2.0
  {
    assert aspect == w / h;
    assert hv * aspect * 2.0 / w == 2.0 * hv / h by {
      assert hv * aspect * 2.0 == 2.0 * hv * w / h;
    }
    assert ((hv * aspect * 2.0) / w) * w == hv * aspect * 2.0;
  }

  /** The source's pixel-size test: with a quarter-turn field of view, so a
      half view of 1, a 200 by 125 canvas and a 125 by 200 canvas both have
      pixels 0.01 wide. */
  lemma PixelSizeExamples(halfView: real)
    requires halfView == 1.0
    ensures PixelSizes(200, 125, halfView).0 == 0.01
    ensures PixelSizes(125, 200, halfView).0 == 0.01
  {
    PixelSizeMeaning(200, 125, halfView);
    PixelSizeMeaning(125, 200, halfView);
  }

  // ---------------------------------------------------------------------
  // Construction

  /** `Camera::new`: the size, field of view and transformation as given,
      the pixel geometry for the half view `tan(fov / 2)`, and the inverse of
      the transformation, whose `unwrap` panics on a singular matrix. */
  function New(width: int, height: int, fov: real, transform: M.Matrix, tan: real -> real): (c: Option<Camera>)
    requires width != 0 && height != 0
    ensures c.None? <==> !M.IsInvertible(transform)
    ensures c.Some? ==> Sized(c.value, tan(fov / 2.0)) && Inverts(c.value)
    ensures c.Some? ==> c.value.width == width && c.value.height == height
    ensures c.Some? ==> c.value.fov == fov && c.value.transform == transform
  {
    var (size, hw, hh) := PixelSizes(width, height, tan(fov / 2.0));
    match M.Inverse(transform)
    case None => None
    case Some(inv) => Some(Camera(width, height, fov, transform, size, hw, hh, inv))
  }

  // ---------------------------------------------------------------------
  // Rays through pixels

  /** The centre of pixel (x, y) on the canvas plane `z = -1` in camera
      space: x grows to the left and y downwards from the top-left corner. */
  function ViewPoint(cam: Camera, x: int, y: int): (p: P.Point)
    ensures P.Z(p) == -1.0
  {
    P.New(cam.halfWidth - (x as real + 0.5) * cam.pixelSize,
          cam.halfHeight - (y as real + 0.5) * cam.pixelSize, -1.0)
  }

  /** `ray_for_pixel`: the inverse transform carries the pixel centre and
      the eye at the camera-space origin into the world; the ray starts at
      the eye and points at the pixel. */
  function RayForPixel(cam: Camera, x: int, y: int, normalize: V.Vector -> V.Vector): (r: R.Ray)
  {
    var pixel := TR.MulPoint(cam.transformInverse, ViewPoint(cam, x, y));
    var origin := TR.MulPoint(cam.transformInverse, P.New(0.0, 0.0, 0.0));
    R.Ray(origin, normalize(P.Sub(pixel, origin)))
  }

  /** What a camera's ray is: its origin is the world point the camera
      transform takes to the eye at the origin, and its direction is the
      normalization of the world vector the camera transform takes to the
      camera-space direction from the eye to the pixel centre. */
  lemma RayForPixelMeaning(cam: Camera, x: int, y: int, normalize: V.Vector -> V.Vector)
    requires Inverts(cam)
    ensures TR.MulPoint(cam.transform, RayForPixel(cam, x, y, normalize).origin) == P.Origin()
    ensures forall v: V.Vector :: TR.MulVector(cam.transform, v) == P.Sub(ViewPoint(cam, x, y), P.Origin())
              ==> RayForPixel(cam, x, y, normalize).direction == normalize(v)
  {
    var inv, view, eye := cam.transformInverse, ViewPoint(cam, x, y), P.New(0.0, 0.0, 0.0);
    InvertsTuple(cam, eye.data);
    var pixel, origin := TR.MulPoint(inv, view), TR.MulPoint(inv, eye);
    MulTupleSub(inv, view.data, eye.data);
    forall v: V.Vector | TR.MulVector(cam.transform, v) == P.Sub(view, P.Origin())
      ensures P.Sub(pixel, origin) == v
    {
      InvertsTuple(cam, v.data);
    }
  }

  /** The stored inverse undoes the transformation on every tuple, and the
      transformation undoes the inverse. */
  lemma InvertsTuple(cam: Camera, t: T.Tuple)
    requires Inverts(cam)
    ensures TR.MulTuple(cam.transformInverse, TR.MulTuple(cam.transform, t)) == t
    ensures TR.MulTuple(cam.transform, TR.MulTuple(cam.transformInverse, t)) == t
  {
    TR.MulTupleCompose(cam.transformInverse, cam.transform, t);
    TR.MulTupleCompose(cam.transform, cam.transformInverse, t);
    TR.MulTupleIdentity(t);
  }

  /** Matrices distribute over differences of tuples. */
  lemma MulTupleSub(m: M.Matrix, a: T.Tuple, b: T.Tuple)
    ensures TR.MulTuple(m, T.Sub(a, b)) == T.Sub(TR.MulTuple(m, a), TR.MulTuple(m, b))
  {
    forall r: nat | r < 4
      ensures TR.RowTimes(m, r, T.Sub(a, b)) == TR.RowTimes(m, r, a) - TR.RowTimes(m, r, b)
    {
      DotSub(M.Get(m, r, 0), M.Get(m, r, 1), M.Get(m, r, 2), M.Get(m, r, 3), a, b);
    }
  }

  /** One row against a difference, over plain numbers. */
  lemma DotSub(m0: real, m1: real, m2: real, m3: real, a: T.Tuple, b: T.Tuple)
    ensures M.Dot4(m0, m1, m2, m3, a.x - b.x, a.y - b.y, a.z - b.z, a.w - b.w)
         == M.Dot4(m0, m1, m2, m3, a.x, a.y, a.z, a.w) - M.Dot4(m0, m1, m2, m3, b.x, b.y, b.z, b.w)
  {
  }

  /** On a canvas with an odd number of columns and rows the middle pixel's
      centre is straight ahead, at (0, 0, -1), whatever the field of view. */
  lemma CentrePixel(cam: Camera, halfView: real, x: int, y: int)
    requires Sized(cam, halfView) && cam.width > 0 && cam.height > 0
    requires 2 * x + 1 == cam.width && 2 * y + 1 == cam.height
    ensures ViewPoint(cam, x, y) == P.New(0.0, 0.0, -1.0)
  {
    PixelSizeMeaning(cam.width, cam.height, halfView);
    MiddleOffset(cam.pixelSize, cam.halfWidth, x);
    MiddleOffset(cam.pixelSize, cam.halfHeight, y);
  }

  /** Half of `2n + 1` pixels reach exactly the centre of pixel n. */
  lemma MiddleOffset(size: real, half: real, n: int)
    requires half == size * (2 * n + 1) as real / 2.0
    ensures half - (n as real + 0.5) * size == 0.0
  {
  }

  /** The source's centre-ray test: a 201 by 101 camera with the identity
      transform sends the ray through pixel (100, 50) from the origin
      straight down -z. */
  lemma CentreRayExample(cam: Camera, halfView: real, normalize: V.Vector -> V.Vector)
    requires Sized(cam, halfView) && cam.width == 201 && cam.height == 101
    requires cam.transform == M.Identity() && Inverts(cam)
    requires normalize(V.New(0.0, 0.0, -1.0)) == V.New(0.0, 0.0, -1.0)
    ensures RayForPixel(cam, 100, 50, normalize) == R.Ray(P.New(0.0, 0.0, 0.0), V.New(0.0, 0.0, -1.0))
  {
    CentrePixel(cam, halfView, 100, 50);
    IdentityRay(cam, 100, 50, normalize, 0.0, 0.0);
  }

  /** Under the identity transform the ray starts at the origin and points
      at the pixel centre, whose camera-space coordinates are given. */
  lemma IdentityRay(cam: Camera, x: int, y: int, normalize: V.Vector -> V.Vector, px: real, py: real)
    requires Inverts(cam)
    requires cam.transform == M.Identity()
    requires ViewPoint(cam, x, y) == P.New(px, py, -1.0)
    ensures RayForPixel(cam, x, y, normalize) == R.Ray(P.New(0.0, 0.0, 0.0), normalize(V.New(px, py, -1.0)))
  {
    var r := RayForPixel(cam, x, y, normalize);
    RayForPixelMeaning(cam, x, y, normalize);
    TR.MulTupleIdentity(r.origin.data);
    TR.MulTupleIdentity(V.New(px, py, -1.0).data);
  }

  /** The source's corner-ray test, before normalizing: the ray through
      pixel (0, 0) of the same camera points at (200/201, 100/201, -1). The
      rounded unit components the test compares depend on a square root and
      are not restated. */
  lemma CornerRayExample(cam: Camera, halfView: real, normalize: V.Vector -> V.Vector)
    requires Sized(cam, halfView) && halfView == 1.0 && cam.width == 201 && cam.height == 101
    requires cam.transform == M.Identity() && Inverts(cam)
    ensures RayForPixel(cam, 0, 0, normalize)
         == R.Ray(P.New(0.0, 0.0, 0.0), normalize(V.New(200.0 / 201.0, 100.0 / 201.0, -1.0)))
  {
    PixelSizeMeaning(201, 101, halfView);
    assert cam.pixelSize == 2.0 / 201.0;
    assert ViewPoint(cam, 0, 0) == P.New(200.0 / 201.0, 100.0 / 201.0, -1.0);
    IdentityRay(cam, 0, 0, normalize, 200.0 / 201.0, 100.0 / 201.0);
  }

  /** The source's transformed-camera test expects the ray through the
      centre to start at (0, 2, -5). With `rotation_y(pi/4).translate(0, -2,
      5)` built as written, translation after rotation, the camera transform
      takes (0, 2, -5) to (-5 sin, 0, 5 - 5 cos), not to the eye, so the ray
      cannot start there: the expected origin belongs to the other
      composition order. */
  lemma TransformedCameraOrigin(cam: Camera, c: real, s: real, normalize: V.Vector -> V.Vector)
    requires c == s && c * c == 0.5
    requires cam.transform == TR.Translate(TR.RotateY(M.Identity(), c, s), 0.0, -2.0, 5.0)
    requires Inverts(cam)
    ensures RayForPixel(cam, 100, 50, normalize).origin != P.New(0.0, 2.0, -5.0)
  {
    RayForPixelMeaning(cam, 100, 50, normalize);
    var q := P.New(0.0, 2.0, -5.0);
    TR.MulTupleIdentity(q.data);
    var moved := TR.MulTuple(cam.transform, q.data);
    assert moved == TR.MulTuple(TR.Translation(0.0, -2.0, 5.0), TR.MulTuple(TR.RotationY(c, s), q.data));
    assert moved.x == -5.0 * s;
    assert s != 0.0;
  }

  /** The composition the transformed-camera test evidently means, the
      translation by (0, -2, 5) first and the turn about y after it, takes
      (0, 2, -5) to the eye; since the transform is one to one, the ray
      through the centre starts exactly there. */
  lemma CorrectedCameraOrigin(cam: Camera, c: real, s: real, normalize: V.Vector -> V.Vector)
    requires c == s && c * c == 0.5
    requires cam.transform == M.Mul(TR.RotationY(c, s), TR.Translation(0.0, -2.0, 5.0))
    requires Inverts(cam)
    ensures RayForPixel(cam, 100, 50, normalize).origin == P.New(0.0, 2.0, -5.0)
  {
    RayForPixelMeaning(cam, 100, 50, normalize);
    var q, o := P.New(0.0, 2.0, -5.0), RayForPixel(cam, 100, 50, normalize).origin;
    TranslateThenTurnToEye(cam.transform, c, s);
    SameImage(cam, q.data, o.data);
  }

  /** Translating by (0, -2, 5) takes (0, 2, -5) to the origin, which any
      turn about y leaves in place. */
  lemma TranslateThenTurnToEye(m: M.Matrix, c: real, s: real)
    requires m == M.Mul(TR.RotationY(c, s), TR.Translation(0.0, -2.0, 5.0))
    ensures TR.MulTuple(m, T.Tuple(0.0, 2.0, -5.0, 1.0)) == T.Tuple(0.0, 0.0, 0.0, 1.0)
  {
    var q := T.Tuple(0.0, 2.0, -5.0, 1.0);
    TR.MulTupleCompose(TR.RotationY(c, s), TR.Translation(0.0, -2.0, 5.0), q);
    TranslateToOrigin();
    TurnKeepsOrigin(c, s);
  }

  lemma TranslateToOrigin()
    ensures TR.MulTuple(TR.Translation(0.0, -2.0, 5.0), T.Tuple(0.0, 2.0, -5.0, 1.0)) == T.Tuple(0.0, 0.0, 0.0, 1.0)
  {
  }

  lemma TurnKeepsOrigin(c: real, s: real)
    ensures TR.MulTuple(TR.RotationY(c, s), T.Tuple(0.0, 0.0, 0.0, 1.0)) == T.Tuple(0.0, 0.0, 0.0, 1.0)
  {
  }

  /** An invertible camera transform is one to one. */
  lemma SameImage(cam: Camera, a: T.Tuple, b: T.Tuple)
    requires Inverts(cam) && TR.MulTuple(cam.transform, a) == TR.MulTuple(cam.transform, b)
    ensures a == b
  {
    InvertsTuple(cam, a);
    InvertsTuple(cam, b);
  }

  // ---------------------------------------------------------------------
  // Rendering

  /** The colour the world shows along the camera's ray through pixel
      (x, y); `None` when that panics. */
  function PixelColor(cam: Camera, w: W.WorldImpl, x: int, y: int, sqrt: real -> real,
                      shade: (I.Intersection, R.Ray) -> C.Color, normalize: V.Vector -> V.Vector): Option<C.Color>
  {
    W.ColorAt(w, RayForPixel(cam, x, y, normalize), sqrt, shade)
  }

  /** No pixel's colour panics. */
  predicate AllPixelsShade(cam: Camera, w: W.WorldImpl, sqrt: real -> real,
                           shade: (I.Intersection, R.Ray) -> C.Color, normalize: V.Vector -> V.Vector)
  {
    forall x, y :: 0 <= x < cam.width && 0 <= y < cam.height ==>
      PixelColor(cam, w, x, y, sqrt, shade, normalize).Some?
  }

  /** `render`: a canvas of the camera's size with every pixel (x, y) the
      world's colour along the ray through it. The canvas is allocated
      first; the source computes the colours in parallel and writes them
      afterwards, which yields the same canvas, and any panic (allocating,
      intersecting, writing) makes the whole render panic. */
  method Render(cam: Camera, w: W.WorldImpl, sqrt: real -> real,
                shade: (I.Intersection, R.Ray) -> C.Color, normalize: V.Vector -> V.Vector)
    returns (image: Option<CV.Canvas>)
    requires CV.IsI32(cam.width) && CV.IsI32(cam.height)
    ensures image.Some? <==> CV.New(cam.width, cam.height).Some? && AllPixelsShade(cam, w, sqrt, shade, normalize)
    ensures image.Some? ==> CV.Valid(image.value)
    ensures image.Some? ==> image.value.width == cam.width && image.value.height == cam.height
    ensures image.Some? ==> forall x, y :: 0 <= x < cam.width && 0 <= y < cam.height ==>
              CV.PixelAt(image.value, x, y) == PixelColor(cam, w, x, y, sqrt, shade, normalize)
  {
    var pixel := (x, y) => PixelColor(cam, w, x, y, sqrt, shade, normalize);
    image := Paint(cam.width, cam.height, pixel);
    assert forall x, y :: pixel(x, y) == PixelColor(cam, w, x, y, sqrt, shade, normalize);
    PaintedAllShade(cam, w, sqrt, shade, normalize, pixel);
  }

  /** A colouring that agrees with the world's colours has no panicking
      pixel exactly when no pixel's colour panics. */
  lemma PaintedAllShade(cam: Camera, w: W.WorldImpl, sqrt: real -> real,
                        shade: (I.Intersection, R.Ray) -> C.Color, normalize: V.Vector -> V.Vector,
                        pixel: (int, int) -> Option<C.Color>)
    requires forall x, y :: pixel(x, y) == PixelColor(cam, w, x, y, sqrt, shade, normalize)
    ensures (forall x, y :: 0 <= x < cam.width && 0 <= y < cam.height ==> pixel(x, y).Some?)
            <==> AllPixelsShade(cam, w, sqrt, shade, normalize)
  {
  }

  /** The loops of `render`, for any colouring of the pixels: a fresh
      canvas with pixel (x, y) written with `pixel(x, y)`, row by row, or a
      panic when allocating or colouring any pixel panics. */
  method Paint(width: int, height: int, pixel: (int, int) -> Option<C.Color>)
    returns (image: Option<CV.Canvas>)
    requires CV.IsI32(width) && CV.IsI32(height)
    ensures image.Some? <==> CV.New(width, height).Some?
                             && forall x, y :: 0 <= x < width && 0 <= y < height ==> pixel(x, y).Some?
    ensures image.Some? ==> CV.Valid(image.value)
    ensures image.Some? ==> image.value.width == width && image.value.height == height
    ensures image.Some? ==> forall x, y :: 0 <= x < width && 0 <= y < height ==>
              CV.PixelAt(image.value, x, y) == pixel(x, y)
  {
    var blank := CV.New(width, height);
    if blank.None? {
      return None;
    }
    var cv := blank.value;
    var y := 0;
    while y < height
      invariant 0 <= y && (height >= 0 ==> y <= height)
      invariant CV.Valid(cv) && cv.width == width && cv.height == height
      invariant forall x', y' :: 0 <= x' < width && 0 <= y' < y ==>
                  pixel(x', y').Some? && CV.PixelAt(cv, x', y') == pixel(x', y')
    {
      var x := 0;
      while x < width
        invariant 0 <= x && (width >= 0 ==> x <= width)
        invariant CV.Valid(cv) && cv.width == width && cv.height == height
        invariant forall x', y' :: 0 <= x' < width && 0 <= y' < y ==>
                    pixel(x', y').Some? && CV.PixelAt(cv, x', y') == pixel(x', y')
        invariant forall x' :: 0 <= x' < x ==>
                    pixel(x', y).Some? && CV.PixelAt(cv, x', y) == pixel(x', y)
      {
        var color := pixel(x, y);
        if color.None? {
          return None;
        }
        cv := WriteKeeping(cv, x, y, color.value);
        x := x + 1;
      }
      y := y + 1;
    }
    image := Some(cv);
  }

  /** Writes one pixel inside a valid canvas: that pixel reads back the new
      colour and every other pixel inside the canvas keeps its own. */
  method WriteKeeping(cv: CV.Canvas, x: int, y: int, col: C.Color) returns (next: CV.Canvas)
    requires CV.Valid(cv) && CV.InRange(cv, x, y)
    ensures CV.Valid(next) && next.width == cv.width && next.height == cv.height
    ensures CV.PixelAt(next, x, y) == Some(col)
    ensures forall x', y' :: CV.InRange(cv, x', y') && (x' != x || y' != y) ==>
              CV.PixelAt(next, x', y') == CV.PixelAt(cv, x', y')
  {
    CV.InRangeIndex(cv, x, y);
    next := CV.WritePixel(cv, x, y, col).value;
    CV.WriteThenRead(cv, x, y, col);
    forall x', y' | CV.InRange(cv, x', y') && (x' != x || y' != y)
      ensures CV.PixelAt(next, x', y') == CV.PixelAt(cv, x', y')
    {
      CV.WriteFrame(cv, x, y, col, x', y');
    }
  }
}
