# rtracer core in Dafny

A model of the value-level core of the `rtracer` ray tracer (a Rust
implementation of "The Ray Tracer Challenge"), with proofs of what its
operations promise. It covers:

- the linear-algebra kernel:
  - homogeneous tuples, points and vectors;
  - 2×2, 3×3 and 4×4 matrices with determinants, cofactors and the adjugate inverse;
  - the transformation builders and their fluent forms;
- rays and their intersections with the unit sphere;
- hit selection;
- the world builder, with world intersection, `color_at` and the shadow test;
- Phong lighting and stripe patterns;
- the camera's pixel geometry, its rays and `render`;
- colours and the pixel canvas, with its save buffer.

One Dafny module per source file:

| module | source |
|---|---|
| `FloatCompare` | `src/maths/float_compare.rs` |
| `Tuples`, `Points`, `Vectors` | `src/maths/tuple.rs`, `point.rs`, `vector.rs` |
| `MatrixMethods` | `src/maths/matrix_methods.rs` |
| `Matrix2x2`, `Matrix3x3`, `Matrix4x4` | `src/maths/matrix2x2.rs`, `matrix3x3.rs`, `matrix4x4.rs` |
| `Transforms` | the builders and `Mul` impls in `src/maths/matrix4x4.rs` |
| `TransformExamples` | the unit tests in `src/maths/matrix_test.rs` |
| `Colors`, `Canvases` | `src/image/color.rs` and `src/canvas/color.rs`; `src/image/canvas.rs` and `src/canvas/canvas.rs` |
| `Shapes`, `Rays`, `Intersections`, `IntersectionStatistics` | `src/primitives/shape.rs`, `ray.rs`, `intersection.rs`, `intersection_stats.rs` |
| `Lights`, `Materials`, `Patterns` | `src/primitives/point_light.rs`, `material.rs`, `pattern.rs` |
| `Worlds`, `Cameras` | `src/primitives/world.rs`, `camera.rs` |
| `Wrappers` | the `Option` type that models a panic |

## Modelling conventions

- **Arithmetic.** `f64` is modelled by exact `real`. `is_same` keeps its
  fixed absolute tolerance of 100 times `f64::EPSILON`, written out as a
  rational constant.
- **Transcendental functions are parameters.** This covers:
  - the square root of the discriminant (`sqrt`);
  - the length used by `normalize` (or a `normalize` function);
  - `tan(fov / 2)` (`halfView`);
  - `powf` (`pow`);
  - the cosine and sine of a rotation (`c`, `s`).

  Where a property needs such a value to be right, the lemma states it as
  a precondition, for example `sqrt(x) * sqrt(x) == x` or `c * c + s * s == 1`.
- **Panics** become `Option`, with `None` for the panic. This covers:
  - `unwrap` on a missing inverse;
  - an out-of-range `pixel_at` or `write_pixel`;
  - a canvas whose size overflows;
  - the matrix accessor's guard.
- **Integer casts are written out.** Canvas coordinates are `i32` and the
  index `x + y * width` is computed in `i32`: overflow panics as in a
  debug build. The stripe pattern's `floor(x) as i32` saturates, and its
  `% 2` truncates like Rust's, so a negative odd band has remainder -1.
- **Colour bytes** are written out as well: the save buffer's
  `(clamp(c) * 255) as u8` and `to_u32`'s shifts and `|`.
- **Matrices** are row-major sequences of reals, and `Get(m, r, c)` reads
  `m[r * n + c]`. Matrix equality is entrywise `is_same`.
- **Determinants.** Each Laplace expansion the source uses is proved equal
  to the Leibniz formula. This is what the transpose, product and inverse
  properties rest on.
- **Lighting.** `prepare_computations` and the shapes' materials are not
  part of this model, so neither is `shade_hit`, which needs both.
  `color_at` therefore takes the shading of a hit as a parameter `shade`,
  and its contracts say which hit gets shaded.
- **`render`** computes every pixel's colour and writes it. The source
  computes the colours in parallel and writes them afterwards, so the
  canvas is the same.

## Notes on the source

- **The fluent builders prepend.** `m.translate(..)` is
  `translation(..) * m`, and likewise for `scale` and `rotate_*`. A chain
  therefore applies its transformations in the order they are written,
  which `Transforms.FluentOrder` proves.
  - Two tests expect the reverse composition:
    - the chained-transform test, src/maths/matrix_test.rs:444-451;
    - the transformed-camera test, src/primitives/camera_test.rs:47-58.
  - Under the code as written they cannot pass.
    `TransformExamples.FluentChainExample` shows the chain takes (1, 0, 1)
    to (55, -40, 25), not the expected (15, 0, 7).
    `Cameras.TransformedCameraOrigin` shows the ray cannot start at (0, 2, -5).
  - The model follows the code. The demo scene relies on the prepend order.
    The two tests are logged under "## Findings", each with the composition
    that gives its expected value
    (`TransformExamples.ReversedFluentChainExample`,
    `Cameras.CorrectedCameraOrigin`).
- **`ray_intersects` orders hits with `sort_unstable`.** That needs an
  ordering which src/primitives/intersection.rs does not derive for
  `Intersection`. The model sorts ascending by `t`, as `hit` does.
  - With distinct times the result is unique (`Intersections.SortedUnique`).
  - With tied times, which tied element comes first is unspecified.
    `hit`'s time does not depend on it (`Intersections.HitOrderIndependent`).
- **Some matrix functions are defined from their tests.** `src/maths/matrix4x4.rs`
  calls several functions that none of the source files define:
  - the 3×3 `submatrix`, `minor`, `cofactor`, `determinant` and `new_from_slice`;
  - the 2×2 `determinant`;
  - `MatrixMethods::submatrix_data`;
  - `MatrixMethods` equality.

  Their definitions follow the tests in src/maths/matrix_test.rs:140-215.
  Equality is entrywise `is_same`.
- **The material tests call a four-argument `lighting`.** The model
  follows the five-argument signature in src/primitives/material.rs, with
  `in_shadow` false in the test cases.
- **The two colour and canvas files** (`src/image/*` and `src/canvas/*`)
  are near copies. One model covers both; `to_u32` exists only in the
  `src/image` copy.

## Model

| member | source | states |
|---|---|---|
| FloatCompare.IsSame | src/maths/float_compare.rs:1-5 | `is_same(a, b)` holds exactly when `b` lies in the closed interval of radius 100·`f64::EPSILON` around `a` |
| FloatCompare.IsSameReflexiveSymmetric | src/maths/float_compare.rs:1-5 | the comparison is reflexive and symmetric |
| FloatCompare.IsSameNotTransitive | src/maths/float_compare.rs:1-5 | it is not transitive: 0 ≈ tol ≈ 2·tol but not 0 ≈ 2·tol |
| FloatCompare.IsSameExamples | src/maths/float_compare.rs:13-19 | the unit test's four comparisons |
| Tuples.NewPoint | src/maths/tuple.rs:22-29 | keeps x, y, z; the tuple is a point and not a vector |
| Tuples.NewVector | src/maths/tuple.rs:31-38 | keeps x, y, z; the tuple is a vector and not a point |
| Tuples.PointOrVector | src/maths/tuple.rs:68-74 | no tuple is both a point and a vector |
| Tuples.Add | src/maths/tuple.rs:97-107 | point + vector is a point, vector + vector is a vector |
| Tuples.Sub | src/maths/tuple.rs:109-120 | adding `b` back to `a - b` gives `a` |
| Tuples.Neg | src/maths/tuple.rs:122-133 | `a + (-a)` is the zero tuple |
| Tuples.Scale | src/maths/tuple.rs:135-145 | scaling by -1 negates, scaling by 1 changes nothing |
| Tuples.Div | src/maths/tuple.rs:147-157 | for a non-zero divisor, scaling the quotient back gives the dividend |
| Tuples.Cross | src/maths/tuple.rs:44-50 | the cross product is always a vector |
| Tuples.EqReflexiveSymmetric | src/maths/tuple.rs:88-95 | `==` is reflexive and symmetric, and a `w` differing beyond the tolerance makes tuples unequal |
| Tuples.AddLaws | src/maths/tuple.rs:97-133 | addition is commutative and associative; subtraction is adding the negation; negation is an involution; point + point is neither kind |
| Tuples.SubKinds | src/maths/tuple.rs:109-120 | point - point is a vector, point - vector a point, vector - vector a vector |
| Tuples.DotLaws | src/maths/tuple.rs:40-42 | `dot` is symmetric and bilinear |
| Tuples.CrossLaws | src/maths/tuple.rs:44-50 | `cross` is anticommutative, zero on equal operands, orthogonal to both operands' x/y/z parts |
| Tuples.TupleExamples | src/maths/tuple_test.rs:15-121 | the unit tests' kind checks, sum, differences, negation, product and quotient |
| Points.New | src/maths/point.rs:10-14 | coordinates read back unchanged; `w` is 1; the tuple is a point |
| Points.AddVector | src/maths/point.rs:55-59 | point + vector is a point that differs from the start by exactly the vector |
| Points.Sub | src/maths/point.rs:41-46 | point - point is a vector, and moving `q` along `p - q` arrives at `p` |
| Points.SubVector | src/maths/point.rs:48-53 | point - vector is a point, and adding the vector back restores the start |
| Points.PointExamples | src/maths/tuple_test.rs:29-71 | `Point::new` has `w` 1; (3,2,1) - (5,6,7) is the vector (-2,-4,-6) |
| Points.SubVectorExample | src/maths/tuple_test.rs:81-87 | (3,2,1) - vector (5,6,7) is the point (-2,-4,-6) |
| Vectors.New | src/maths/vector.rs:10-14 | coordinates read back unchanged; `w` is 0 |
| Vectors.Up | src/maths/vector.rs:20-22 | the unit vector along +y |
| Vectors.Cross | src/maths/vector.rs:64-70 | the cross product is a vector |
| Vectors.Sub | src/maths/vector.rs:88-93 | vectors stay vectors, and adding `b` back gives `a` |
| Vectors.Scale | src/maths/vector.rs:95-100 | vectors stay vectors; scaling by 1 changes nothing |
| Vectors.Neg | src/maths/vector.rs:102-107 | vectors stay vectors; `a + (-a)` is zero |
| Vectors.LenSquared | src/maths/vector.rs:72-76 | the quantity under the square root of `len` is non-negative |
| Vectors.Normalize | src/maths/vector.rs:78-81 | scaling the result back by the length gives the input; vectors stay vectors |
| Vectors.NormalizeUnit | src/maths/vector.rs:72-81 | dividing by the true, non-zero length gives squared length 1 |
| Vectors.Reflect | src/maths/vector.rs:83-85 | reflecting a vector off a vector gives a vector |
| Vectors.ReflectComponents | src/maths/vector.rs:83-85 | the reflection componentwise: `v - n·2·(v·n)` |
| Vectors.ReflectInvolution | src/maths/vector.rs:83-85 | for a unit normal: the component along the normal flips, the length is kept, and reflecting twice restores `v` |
| Vectors.ReflectFlips | src/maths/vector.rs:83-85 | for a unit normal the component along it changes sign |
| Vectors.ReflectKeepsLength | src/maths/vector.rs:83-85 | for a unit normal the reflection keeps the length |
| Vectors.ReflectTwice | src/maths/vector.rs:83-85 | for a unit normal, reflecting twice is the identity |
| Vectors.CrossLaws | src/maths/vector.rs:64-70 | anticommutative, and orthogonal to each operand that is a vector |
| Vectors.DotExample | src/maths/tuple_test.rs:141-146 | (1,2,3)·(2,3,4) = 20 |
| Vectors.SubExample | src/maths/tuple_test.rs:97-103 | (3,2,1) - (5,6,7) = (-2,-4,-6) |
| Vectors.NegExample | src/maths/tuple_test.rs:174-179 | -(1,-2,3) = (-1,2,-3) |
| Vectors.CrossExample | src/maths/tuple_test.rs:148-154 | (1,2,3)×(2,3,4) = (-1,2,-1) |
| Vectors.CrossExampleSwapped | src/maths/tuple_test.rs:148-154 | (2,3,4)×(1,2,3) = (1,-2,1) |
| Vectors.ReflectExample | src/maths/tuple_test.rs:156-162 | (1,-1,0) reflected off (0,1,0) is (1,1,0) |
| MatrixMethods.New | src/maths/matrix_methods.rs:7-9 | the view keeps the storage and the size |
| MatrixMethods.IndexBound | src/maths/matrix_methods.rs:15 | row-major indices of in-range coordinates stay below `size * size` |
| MatrixMethods.AtIndex | src/maths/matrix_methods.rs:11-16 | past the guard and inside the storage, `at` reads `data[row * size + col]` |
| MatrixMethods.AtInRange | src/maths/matrix_methods.rs:11-16 | for coordinates inside a well-formed matrix, `at` reads the row-major entry |
| MatrixMethods.AtGuardQuirk | src/maths/matrix_methods.rs:12-15 | the guard `>` lets `col == size` through: it reads the first entry of the next row, and panics only on the last row |
| MatrixMethods.CheckedAt | src/maths/matrix_methods.rs:12-15 | the guard the row-major layout calls for, coordinates 0 to size - 1: fails exactly outside the matrix and otherwise agrees with `at` |
| MatrixMethods.Skip | src/maths/matrix4x4.rs:203-206 | the submatrix's line `i` comes from full-matrix line `i` or `i + 1`, never the removed line `k`, keeping the order relative to `k` |
| MatrixMethods.EqReflexiveSymmetric | src/maths/matrix3x3.rs:35-39 | matrix equality (entrywise `is_same`) is reflexive and symmetric |
| Matrix2x2.New | src/maths/matrix2x2.rs:8-12 | the four arguments are stored row by row |
| Matrix2x2.At | src/maths/matrix2x2.rs:14-17 | through the shared guard: reads entry (row, col) inside the matrix; column 2 on any row but the last reads the first entry of the next row; every other index panics |
| Matrix2x2.DeterminantAlternates | src/maths/matrix_test.rs:140-147 | swapping rows or columns negates the 2x2 determinant; transposing keeps it |
| Matrix2x2.Examples | src/maths/matrix_test.rs:22-33 | the construction test's reads |
| Matrix2x2.DeterminantExample | src/maths/matrix_test.rs:140-147 | det of (1, 5; -3, 2) is 17 |
| Matrix3x3.New | src/maths/matrix3x3.rs:10-24 | the nine arguments are stored row by row |
| Matrix3x3.At | src/maths/matrix3x3.rs:26-28 | through the shared guard: reads entry (row, col) inside the matrix; column 3 on any row but the last reads the first entry of the next row; every other index panics |
| Matrix3x3.Submatrix | src/maths/matrix_test.rs:149-163 | entry (i, j) of the 2x2 submatrix is the full matrix's entry with the removed row and column skipped |
| Matrix3x3.Cofactor | src/maths/matrix_test.rs:176-188 | the minor on even `row + col`, its negation on odd |
| Matrix3x3.Transpose | src/maths/matrix_test.rs:122-139 | entry (r, c) of the transpose is entry (c, r) |
| Matrix3x3.Extensionality | src/maths/matrix3x3.rs:4-7 | two matrices with the same nine entries are equal |
| Matrix3x3.DeterminantIsLeibniz | src/maths/matrix_test.rs:189-201 | the row-0 cofactor expansion equals the six-term Leibniz formula |
| Matrix3x3.DeterminantTranspose | src/maths/matrix_test.rs:189-201 | a 3x3 matrix and its transpose have the same determinant |
| Matrix3x3.NewExample | src/maths/matrix_test.rs:34-45 | the construction test's read |
| Matrix3x3.SubmatrixExample | src/maths/matrix_test.rs:149-163 | removing row 0 and column 2 |
| Matrix3x3.MinorExample | src/maths/matrix_test.rs:164-175 | the minor at (1, 0) is 25 |
| Matrix3x3.CofactorExample | src/maths/matrix_test.rs:176-188 | the cofactors at (1, 0) and (0, 0) are -25 and -12 |
| Matrix3x3.DeterminantExample | src/maths/matrix_test.rs:189-201 | the 3x3 determinant is -196 |
| Matrix4x4.New | src/maths/matrix4x4.rs:13-36 | the sixteen arguments are stored row by row |
| Matrix4x4.Identity | src/maths/matrix4x4.rs:42-46 | ones on the diagonal, zeros elsewhere |
| Matrix4x4.At | src/maths/matrix4x4.rs:175-177 | through the shared guard: reads entry (row, col) inside the matrix; column 4 on any row but the last reads the first entry of the next row; every other index panics |
| Matrix4x4.SetAt | src/maths/matrix4x4.rs:183-185 | writes index `row * 4 + col` with no per-coordinate check; panics exactly when that index is past the storage |
| Matrix4x4.Update | src/maths/matrix4x4.rs:183-185 | the written entry holds the value and every other entry is unchanged |
| Matrix4x4.Mul | src/maths/matrix4x4.rs:284-301 | entry (r, c) of the product is row r of `a` against column c of `b` |
| Matrix4x4.Transpose | src/maths/matrix4x4.rs:187-201 | entry (r, c) of the transpose is entry (c, r) |
| Matrix4x4.Extensionality | src/maths/matrix4x4.rs:7-10 | two matrices with the same sixteen entries are equal |
| Matrix4x4.IdentityUnit | src/maths/matrix_test.rs:110-121 | the identity is a unit on both sides of the product |
| Matrix4x4.MulAssociative | src/maths/matrix4x4.rs:284-301 | the product is associative |
| Matrix4x4.TransposeInvolution | src/maths/matrix_test.rs:122-139 | transposing twice restores the matrix; the identity is its own transpose |
| Matrix4x4.TransposeMul | src/maths/matrix4x4.rs:187-201 | the transpose of a product is the product of the transposes in reverse order |
| Matrix4x4.Submatrix | src/maths/matrix4x4.rs:203-206 | entry (i, j) of the 3x3 submatrix is the full entry with the removed row and column skipped |
| Matrix4x4.Cofactor | src/maths/matrix4x4.rs:213-220 | the minor on even `row + col`, its negation on odd |
| Matrix4x4.DeterminantIsLeibniz | src/maths/matrix4x4.rs:222-224 | the row-0 cofactor expansion equals the 24-term Leibniz formula |
| Matrix4x4.Laplace | src/maths/matrix4x4.rs:213-224 | any row against its own cofactors gives the determinant, against another row's cofactors 0 |
| Matrix4x4.DeterminantTranspose | src/maths/matrix4x4.rs:222-224 | a matrix and its transpose have the same determinant |
| Matrix4x4.CofactorTranspose | src/maths/matrix4x4.rs:213-220 | the cofactors of the transpose are the transposed cofactors |
| Matrix4x4.ColumnLaplace | src/maths/matrix4x4.rs:213-224 | the same expansion down any column |
| Matrix4x4.CofactorMatrix | src/maths/matrix4x4.rs:236-243 | entry (r, c) is the cofactor at (r, c) |
| Matrix4x4.InverseOf | src/maths/matrix4x4.rs:236-245 | entry (row, col) is the cofactor at (col, row) over the determinant |
| Matrix4x4.Inverse | src/maths/matrix4x4.rs:226-246 | `None` exactly for determinant 0; otherwise a two-sided inverse |
| Matrix4x4.MulInverse | src/maths/matrix4x4.rs:230-246 | the adjugate over the determinant is a left and a right inverse |
| Matrix4x4.ProductTimesInverse | src/maths/matrix_test.rs:308-326 | multiplying `a * b` by the inverse of `b` gives `a` back |
| Matrix4x4.InverseUnique | src/maths/matrix4x4.rs:230-246 | a right inverse of an invertible matrix is what `inverse` returns |
| Matrix4x4.DeterminantExample | src/maths/matrix_test.rs:202-216 | the row-0 cofactors 690, 447, 210, 51 and determinant -4071 |
| Matrix4x4.InvertibleExample | src/maths/matrix_test.rs:217-238 | the invertible test matrix has determinant -2120 |
| Matrix4x4.SingularExample | src/maths/matrix_test.rs:217-238 | the singular test matrix has no inverse |
| Matrix4x4.InverseExample | src/maths/matrix_test.rs:239-265 | entries (3, 2) and (2, 3) of the inverse are -160/532 and 105/532 |
| Transforms.MulTuple | src/maths/matrix4x4.rs:303-316 | a matrix whose last row is (0, 0, 0, 1) keeps `w` |
| Transforms.MulVector | src/maths/matrix4x4.rs:318-323 | the product on the wrapped tuple; such a matrix keeps vectors vectors |
| Transforms.MulPoint | src/maths/matrix4x4.rs:325-330 | the product on the wrapped tuple; such a matrix keeps points points |
| Transforms.MulTupleIdentity | src/maths/matrix_test.rs:110-121 | the identity leaves every tuple unchanged |
| Transforms.MulTupleCompose | src/maths/matrix4x4.rs:284-316 | applying `a * b` is applying `b`, then `a` |
| Transforms.MulTupleInverse | src/maths/matrix4x4.rs:230-246 | the inverse undoes the matrix on every tuple, on both sides |
| Transforms.Translation | src/maths/matrix4x4.rs:48-54 | the identity with the offsets in the last column |
| Transforms.TranslationMoves | src/maths/matrix_test.rs:327-348 | a translation moves a point by the offset and leaves a vector alone |
| Transforms.TranslationDeterminant | src/maths/matrix4x4.rs:48-54 | a translation has determinant 1 |
| Transforms.TranslationInverse | src/maths/matrix_test.rs:334-341 | the inverse of a translation is the opposite translation |
| Transforms.TranslationsAdd | src/maths/matrix4x4.rs:48-54 | two translations compose to the translation by the summed offsets |
| Transforms.Scaling | src/maths/matrix4x4.rs:56-60 | each coordinate is multiplied by its factor and `w` is kept |
| Transforms.ScalingDeterminant | src/maths/matrix4x4.rs:56-60 | the determinant is the product of the factors |
| Transforms.ScalingsMultiply | src/maths/matrix4x4.rs:56-60 | two scalings compose to the scaling by the products |
| Transforms.ScalingInverse | src/maths/matrix_test.rs:363-370 | with no zero factor, the inverse scales by the reciprocals; with a zero factor there is none |
| Transforms.RotationX | src/maths/matrix4x4.rs:62-85 | x is kept and (y, z) turns by the angle with cosine `c` and sine `s` |
| Transforms.RotationY | src/maths/matrix4x4.rs:87-110 | y is kept and (z, x) turns by the angle |
| Transforms.RotationZ | src/maths/matrix4x4.rs:112-135 | z is kept and (x, y) turns by the angle |
| Transforms.RotationXDeterminant | src/maths/matrix4x4.rs:62-85 | a rotation about x has determinant 1 |
| Transforms.RotationXInverse | src/maths/matrix_test.rs:387-394 | the inverse of a rotation about x is the opposite rotation, which is its transpose |
| Transforms.RotationYDeterminant | src/maths/matrix4x4.rs:87-110 | a rotation about y has determinant 1 |
| Transforms.RotationYInverse | src/maths/matrix4x4.rs:87-110 | the inverse of a rotation about y is the opposite rotation, which is its transpose |
| Transforms.RotationZDeterminant | src/maths/matrix4x4.rs:112-135 | a rotation about z has determinant 1 |
| Transforms.RotationZInverse | src/maths/matrix4x4.rs:112-135 | the inverse of a rotation about z is the opposite rotation, which is its transpose |
| Transforms.Shearing | src/maths/matrix4x4.rs:137-145 | the last row is (0, 0, 0, 1) |
| Transforms.ShearingMoves | src/maths/matrix_test.rs:413-419 | each coordinate gains the other two times their proportions |
| Transforms.ShearingZero | src/maths/matrix4x4.rs:137-145 | with every proportion zero a shearing is the identity |
| Transforms.Translate | src/maths/matrix4x4.rs:264-266 | the fluent translation acts after the matrix it is called on |
| Transforms.Scale | src/maths/matrix4x4.rs:260-262 | the fluent scaling acts after the matrix it is called on |
| Transforms.RotateX | src/maths/matrix4x4.rs:248-250 | the fluent rotation acts after the matrix it is called on |
| Transforms.RotateY | src/maths/matrix4x4.rs:252-254 | the fluent rotation acts after the matrix it is called on |
| Transforms.RotateZ | src/maths/matrix4x4.rs:256-258 | the fluent rotation acts after the matrix it is called on |
| Transforms.FluentOrder | src/maths/matrix4x4.rs:248-266 | a fluent chain from the identity lists the transformations in the order they act |
| Transforms.Orientation | src/maths/matrix4x4.rs:153-170 | the last row is (0, 0, 0, 1) |
| Transforms.View | src/maths/matrix4x4.rs:147-173 | the last row is (0, 0, 0, 1) |
| Transforms.ViewMovesEye | src/maths/matrix4x4.rs:147-173 | the view transform takes the eye to the origin |
| Transforms.ViewLooksDownZ | src/maths/matrix4x4.rs:147-173 | the view transform turns the viewing direction into -z |
| Transforms.OrientationForward | src/maths/matrix4x4.rs:148-170 | the orientation turns a unit forward vector into -z, because `left` and `true_up` are orthogonal to it |
| TransformExamples.TranslationExample | src/maths/matrix_test.rs:327-333 | (-3, 4, 5) moves to (2, 1, 7) |
| TransformExamples.TranslationInverseExample | src/maths/matrix_test.rs:334-341 | the inverse of the translation by (5, -3, 2) |
| TransformExamples.TranslationBackExample | src/maths/matrix_test.rs:334-341 | the inverse moves (-3, 4, 5) to (-8, 7, 3) |
| TransformExamples.TranslationVectorExample | src/maths/matrix_test.rs:342-348 | the vector is unchanged |
| TransformExamples.ScalingPointExample | src/maths/matrix_test.rs:349-355 | (-4, 6, 8) scales to (-8, 18, 32) |
| TransformExamples.ScalingVectorExample | src/maths/matrix_test.rs:356-362 | the vector scales the same way |
| TransformExamples.ScalingInverseExample | src/maths/matrix_test.rs:363-370 | the inverse of scaling by (2, 3, 4) |
| TransformExamples.ScalingBackExample | src/maths/matrix_test.rs:363-370 | it takes (-4, 6, 8) to (-2, 2, 2) |
| TransformExamples.ReflectionExample | src/maths/matrix_test.rs:371-377 | scaling by (-1, 1, 1) mirrors x |
| TransformExamples.RotationXQuarterExample | src/maths/matrix_test.rs:378-386 | the quarter turn about x |
| TransformExamples.RotationXHalfQuarterExample | src/maths/matrix_test.rs:378-386 | the eighth turn about x |
| TransformExamples.RotationXInverseExample | src/maths/matrix_test.rs:387-394 | the inverse of the eighth turn turns the other way |
| TransformExamples.RotationXBackExample | src/maths/matrix_test.rs:387-394 | the opposite eighth turn takes (0, 1, 0) to (0, h, -h) |
| TransformExamples.RotationYQuarterExample | src/maths/matrix_test.rs:395-403 | the quarter turn about y |
| TransformExamples.RotationYHalfQuarterExample | src/maths/matrix_test.rs:395-403 | the eighth turn about y |
| TransformExamples.RotationZQuarterExample | src/maths/matrix_test.rs:404-412 | the quarter turn about z |
| TransformExamples.RotationZHalfQuarterExample | src/maths/matrix_test.rs:404-412 | the eighth turn about z |
| TransformExamples.ShearingExample | src/maths/matrix_test.rs:413-419 | shearing x by y takes (2, 3, 4) to (5, 3, 4) |
| TransformExamples.SequenceRotateExample | src/maths/matrix_test.rs:420-433 | the first step of the sequence test |
| TransformExamples.SequenceScaleExample | src/maths/matrix_test.rs:420-433 | the second step |
| TransformExamples.SequenceTranslateExample | src/maths/matrix_test.rs:420-433 | the third step, ending at (15, 0, 7) |
| TransformExamples.ChainExample | src/maths/matrix_test.rs:434-443 | the product `C * B * A` takes (1, 0, 1) to (15, 0, 7) |
| TransformExamples.FluentChainExample | src/maths/matrix_test.rs:444-451 | the fluent chain as written takes (1, 0, 1) to (55, -40, 25), not to the (15, 0, 7) the test expects |
| TransformExamples.ReversedFluentChainExample | src/maths/matrix_test.rs:444-451 | the same three fluent calls written rotation first, translation last take (1, 0, 1) to the (15, 0, 7) the test expects |
| TransformExamples.ViewDefaultExample | src/maths/matrix_test.rs:464-472 | looking from the origin toward -z, the view is the identity |
| TransformExamples.ViewPositiveZExample | src/maths/matrix_test.rs:474-482 | looking toward +z, the view is the scaling by (-1, 1, -1) |
| TransformExamples.ViewMovesWorldExample | src/maths/matrix_test.rs:484-492 | from (0, 0, 8) toward the origin, the view is the translation by (0, 0, -8) |
| Colors.New | src/image/color.rs:11-27 | the channels read back unchanged and the hidden `w` is 0 |
| Colors.EqChannels | src/image/color.rs:58-62 | for constructed colours, equality is `is_same` on the three channels; it is reflexive |
| Colors.Add | src/image/color.rs:64-71 | constructed colours stay colours (`w` 0) |
| Colors.Sub | src/image/color.rs:73-80 | adding `b` back to `a - b` gives `a`; colours stay colours |
| Colors.Scale | src/image/color.rs:82-89 | scaling by 1 keeps the colour, by 0 gives black |
| Colors.Mul | src/image/color.rs:91-96 | the product is built by the constructor, so `w` is 0 |
| Colors.MulLaws | src/image/color.rs:91-96 | white is the unit of the channelwise product, black absorbs it, and it commutes |
| Colors.AddSubLaws | src/canvas/color.rs:56-81 | subtraction undoes addition and scaling distributes over it |
| Colors.CastU32 | src/image/color.rs:50-52 | Rust's `as u32` on a float: truncation, saturating at 0 and `u32::MAX` |
| Colors.Shl | src/image/color.rs:54 | a shift in 32-bit arithmetic: exact when the result fits, bits past 31 lost |
| Colors.Or | src/image/color.rs:54 | bitwise OR lies between the larger operand and the sum |
| Colors.OrDisjoint | src/image/color.rs:54 | OR-ing a value below `2^k` into a multiple of `2^k` adds it |
| Colors.ChannelByte | src/image/canvas.rs:49-51 | a channel in [0, 1] becomes the byte `floor(255 v)` |
| Colors.PackBytes | src/image/color.rs:54 | three bytes shifted into bytes 2, 1, 0 unpack again and byte 3 is 0 |
| Colors.ToU32Packs | src/image/color.rs:49-55 | for channels in [0, 1], byte 2, 1 and 0 of `to_u32` are the red, green and blue bytes |
| Colors.ToU32Spills | src/image/color.rs:49-55 | a channel above 1 is not clamped: green 2.0 spills its ninth bit into the red byte |
| Colors.Clamp | src/image/canvas.rs:49 | `min(1.0).max(0.0)` lands in [0, 1], keeps values inside, and sends the rest to the nearer end |
| Colors.ToU32ClampedPacks | src/image/color.rs:49-55 | with the save buffer's clamping first, every colour packs without spilling |
| Colors.ColorExamples | src/image/color_test.rs:3-11 | the channels of (-0.5, 0.4, 1.7) read back, and the colour equals itself |
| Colors.AddExample | src/image/color_test.rs:13-19 | (0.9, 0.6, 0.75) + (0.7, 0.1, 0.25) = (1.6, 0.7, 1.0) |
| Colors.SubExample | src/image/color_test.rs:21-27 | the difference is (0.2, 0.5, 0.5) |
| Colors.ScaleExample | src/image/color_test.rs:29-33 | (0.2, 0.3, 0.4) times 2 |
| Colors.MulExample | src/image/color_test.rs:35-41 | the channelwise product is (0.9, 0.2, 0.04) |
| Canvases.New | src/image/canvas.rs:10-16 | `Some` exactly when `width * height` fits `i32`; then the dimensions are kept and every pixel is black |
| Canvases.CoordToIndex | src/image/canvas.rs:39-41 | `x + y * width`, defined when no `i32` step overflows |
| Canvases.Index | src/image/canvas.rs:39-41 | the index is usable exactly when it is non-negative and inside the storage |
| Canvases.PixelAt | src/canvas/canvas.rs:31-34 | reads the colour at the index, and panics exactly where the index is unusable |
| Canvases.GuardedPixelAtAgrees | src/image/canvas.rs:31-37 | the image canvas's own guard panics exactly where plain indexing would |
| Canvases.WritePixel | src/image/canvas.rs:26-29 | panics exactly where a read would; otherwise the dimensions and the pixel count are kept |
| Canvases.InRangeIndex | src/image/canvas.rs:39-41 | inside the canvas, the index is `x + y * width` and a read succeeds |
| Canvases.RowBound | src/image/canvas.rs:39-41 | an in-range coordinate's index lies below `width * height` |
| Canvases.IndexInjective | src/image/canvas.rs:39-41 | two in-range coordinates with the same index are the same coordinate |
| Canvases.WriteThenRead | src/image/canvas_test.rs:10-17 | reading a pixel after writing it gives the written colour |
| Canvases.WriteFrame | src/canvas/canvas.rs:26-38 | writing one in-range pixel leaves every other in-range pixel unchanged |
| Canvases.NewIsBlack | src/canvas/canvas.rs:10-16 | every pixel of a fresh canvas reads black |
| Canvases.RowWrapAround | src/image/canvas.rs:31-41 | only the combined index is checked: `(width, y)` reads the first pixel of row `y + 1` |
| Canvases.PixelBytes | src/image/canvas.rs:48-56 | four bytes: the clamped channels times 255, then alpha 255 |
| Canvases.PixelBytesSaturate | src/canvas/canvas.rs:46-48 | a channel of 1 or more gives 255, one of 0 or less gives 0 |
| Canvases.SaveBytes | src/canvas/canvas.rs:40-56 | four bytes per pixel |
| Canvases.SaveBytesEncodes | src/canvas/canvas.rs:45-53 | pixel `j`'s bytes sit at positions `4j` to `4j + 3` |
| Canvases.GetSaveBuffer | src/image/canvas.rs:43-59 | fails exactly when the reserved `4 * width * height` overflows `i32`; otherwise length `4 * width * height`, each pixel encoded at four times its index |
| Canvases.EncodesUnique | src/image/canvas.rs:43-59 | two buffers encoding the same pixels are equal, so the encoding pins the buffer down |
| Canvases.SaveBytesAppend | src/image/canvas.rs:48-56 | one more pixel appends its four bytes |
| Canvases.SaveExample | src/image/canvas_test.rs:19-31 | red, black, black, red encode as the test's 16 bytes |
| Canvases.DiagonalExample | src/canvas/canvas_test.rs:22-39 | writing red on the diagonal of a fresh 2×2 canvas gives red, black, black, red |
| Canvases.WriteReadExample | src/canvas/canvas_test.rs:8-20 | the 10×20 canvas keeps its dimensions and reads back the red written at (2, 3) |
| Shapes.Transformation | src/primitives/shape.rs:19-23 | rebuilding a sphere from the transform read out gives the same shape back |
| Shapes.FromTransformation | src/primitives/shape.rs:15-17 | the result is a sphere (the only variant) carrying exactly the given transform |
| Shapes.TransformationRoundTrip | src/primitives/ray_test.rs:156-168 | the transform put in is the transform read out; the default sphere carries the identity |
| Shapes.EqLaws | src/primitives/shape.rs:3-6 | the derived equality is reflexive and symmetric |
| Shapes.DefaultInverse | src/primitives/shape.rs:9-13 | the default sphere's transform has an inverse, the identity, so `intersects` never panics on it |
| Rays.Position | src/primitives/ray.rs:27-29 | at time 0 the position is the origin; the position minus the origin is the direction scaled by the time |
| Rays.PositionAdditive | src/primitives/ray.rs:27-29 | travelling `t1` and then `t2` from there lands where travelling `t1 + t2` does |
| Rays.PositionExample | src/primitives/ray_test.rs:16-24 | from (2, 3, 4) along +x the positions at 0, 1, -1 and 2.5 are the test's four points |
| Rays.Transform | src/primitives/ray.rs:49-51 | an affine matrix keeps a point's `w` at 1 and a vector's `w` at 0 |
| Rays.TransformPosition | src/primitives/ray.rs:49-51 | the transformed ray at `t` is the transformed position of the original ray at `t` |
| Rays.MulTupleLinear | src/primitives/ray.rs:49-51 | a matrix maps `a + t b` to `m a + t (m b)`, the linearity that `TransformPosition` rests on |
| Rays.TransformInverse | src/primitives/ray.rs:49-51 | transforming by an invertible matrix and then by its inverse gives the ray back |
| Rays.CoefANonNegative | src/primitives/ray.rs:34-36 | `a` is never negative and is zero only for a zero direction, which also makes `b` zero |
| Rays.IntersectObjectSpace | src/primitives/ray.rs:33-46 | no hits exactly when the discriminant is negative, otherwise two, all on the given shape, at `(-b - √d) / 2a` and then `(-b + √d) / 2a`; a zero direction (IEEE NaN) is an error |
| Rays.Intersects | src/primitives/ray.rs:31-47 | a non-invertible transform makes `unwrap` panic (`None`); otherwise the error case is exactly the zero direction in object space |
| Rays.RootsOrdered | src/primitives/ray.rs:44-46 | with a non-negative root the two intersections come in ascending order of `t` |
| Rays.RootsSolve | src/primitives/ray.rs:38-46 | given the true square root, `(-b - √d) / 2a` and `(-b + √d) / 2a` both solve `a t² + b t + c = 0` |
| Rays.ReturnedSolve | src/primitives/ray.rs:33-46 | given the true square root, every time `intersects` returns solves the sphere's quadratic |
| Rays.QuadraticRoot | src/primitives/ray.rs:44-45 | `(-b ± e) / 2a` with `e² = b² - 4ac` solves `a t² + b t + c = 0` |
| Rays.RootOnUnitSphere | src/primitives/ray.rs:33-46 | at a root, the ray's position lies on the unit sphere |
| Rays.QuadraticAtPosition | src/primitives/ray.rs:33-36 | the quadratic at `t` is the squared distance of the position at `t` from the centre, minus 1 |
| Rays.IntersectsByInverse | src/primitives/ray.rs:31-32 | once the inverse is known, `intersects` is the object-space computation on the ray moved by it |
| Rays.TransformIdentity | src/primitives/ray.rs:49-51 | the identity leaves a ray unchanged |
| Rays.DefaultSphereIntersects | src/primitives/ray.rs:31-32 | on the default sphere no change of space happens |
| Rays.AlongZ | src/primitives/ray.rs:33-46 | along +z from (0, y, z) the coefficients are 1, 2z, y² + z² - 1, and the hits are `-z ∓ √disc / 2`, none when `y² > 1` |
| Rays.IntersectsExamples | src/primitives/ray_test.rs:27-77 | the five along-z tests: hits at 4 and 6, 5 and 5 (tangent), none, -1 and 1 (inside), -6 and -4 (behind) |
| Rays.TranslateExample | src/primitives/ray_test.rs:136-144 | translating by (3, 4, 5) moves the origin to (4, 6, 8) and keeps the direction |
| Rays.TranslateRay | src/primitives/ray.rs:49-51 | a translation moves a ray's origin by its offset and leaves its direction |
| Rays.ScaleExample | src/primitives/ray_test.rs:146-154 | scaling by (2, 3, 4) gives origin (2, 6, 12) and direction (0, 3, 0) |
| Rays.ScaledSphereExample | src/primitives/ray_test.rs:170-180 | a sphere scaled by 2 is met at 3 and 7 |
| Rays.HalfSphereExample | src/primitives/world_test.rs:33-44 | the default world's inner sphere, scaled by 0.5, is met at 4.5 and 5.5 |
| Rays.TranslatedSphereExample | src/primitives/ray_test.rs:182-190 | a sphere translated to (5, 0, 0) is missed |
| Intersections.New | src/primitives/intersection.rs:10-20 | `t()` and `object()` read back the time and shape given |
| Intersections.Insert | src/primitives/intersection.rs:24 | inserting into a list sorted by `t` keeps it sorted and adds exactly the new element |
| Intersections.SortByT | src/primitives/intersection.rs:24 | the sort leaves the list ordered by `t` and a permutation of its input |
| Intersections.SortedUnique | src/primitives/intersection.rs:24 | with distinct `t` values only one sorted permutation exists, so the unstable sort's choice does not matter |
| Intersections.NestedSort | src/primitives/world.rs:21-30 | two pairs of hits, the second nested inside the first, sort to outer, inner, inner, outer |
| Intersections.FirstNonNegative | src/primitives/intersection.rs:26-28 | nothing exactly when every `t` is negative; otherwise a member of the list with `t >= 0` |
| Intersections.FirstNonNegativeLeast | src/primitives/intersection.rs:22-29 | on a sorted list the first non-negative element has the least non-negative `t` |
| Intersections.HitCorrect | src/primitives/intersection.rs:22-29 | `hit` is `None` exactly when every `t` is negative, and otherwise an element with the least non-negative `t` |
| Intersections.HitOrderIndependent | src/primitives/intersection.rs:22-29 | the order of the input does not change whether there is a hit or its `t` |
| Intersections.HitOfUniqueT | src/primitives/intersection.rs:22-29 | when the least non-negative `t` belongs to one element only, `hit` returns that element |
| Intersections.HitAllPositiveExample | src/primitives/ray_test.rs:88-98 | of hits at 1 and 2 the hit is the one at 1 |
| Intersections.HitSomeNegativeExample | src/primitives/ray_test.rs:100-110 | of hits at -1 and 1 the hit is the one at 1 |
| Intersections.HitAllNegativeExample | src/primitives/ray_test.rs:112-122 | hits at -2 and -1 give no hit |
| Intersections.HitLowestExample | src/primitives/ray_test.rs:124-134 | of hits at 5, 7, -3 and 2 the hit is the one at 2 |
| IntersectionStatistics.New | src/primitives/intersection_stats.rs:15-34 | every accessor reads back the argument given to `new` |
| IntersectionStatistics.NewFromAccessors | src/primitives/intersection_stats.rs:36-61 | every record is the one `new` builds from its own accessors |
| IntersectionStatistics.InsideUnchecked | src/primitives/intersection_stats.rs:15-34 | `new` stores the `inside` flag as given, unchecked against the vectors |
| Lights.New | src/primitives/point_light.rs:11-16 | `position()` and `intensity()` read back the arguments |
| Lights.NewFromAccessors | src/primitives/point_light.rs:18-24 | every light is the one `new` builds from its own accessors |
| Lights.EqLaws | src/primitives/point_light.rs:4 | the derived equality is reflexive and symmetric, and a light moved by more than the tolerance differs |
| Lights.CreationExample | src/primitives/point_light.rs:27-35 | a white light at the origin reads back its position and white intensity |
| Materials.Default | src/primitives/material.rs:17-25 | white, ambient 0.1, diffuse 0.9, specular 0.9, shininess 200 |
| Materials.EqLaws | src/primitives/material.rs:87-96 | equality is reflexive and symmetric, and a shininess moved by more than the tolerance differs |
| Materials.Lighting | src/primitives/material.rs:27-84 | only the ambient term in shadow or with the light behind the surface; ambient plus diffuse when the reflection points away from the eye |
| Materials.LightingChannels | src/primitives/material.rs:36-83 | each channel is the Phong sum: ambient share, diffuse share weighted by the light cosine when lit, specular share weighted by the powered reflection cosine when that cosine is also positive |
| Materials.LightingIsCombine | src/primitives/material.rs:49-83 | `lighting` is the case analysis applied to its three terms at the two cosines |
| Materials.UnderWhite | src/primitives/material.rs:36-83 | under a white light on a white surface the three channels are equal, each the Phong sum |
| Materials.EyeBetweenExample | src/primitives/material_test.rs:12-23 | eye between light and surface on the z axis: 1.9 in every channel |
| Materials.LightBehindExample | src/primitives/material_test.rs:64-74 | light behind the surface: 0.1 in every channel |
| Patterns.New | src/primitives/pattern.rs:10-12 | the two colours read back in order |
| Patterns.SaturateI32 | src/primitives/pattern.rs:15 | the `as i32` cast stays in the 32-bit range |
| Patterns.TruncRem | src/primitives/pattern.rs:15 | Rust's `%` has the sign of the dividend and a magnitude below the divisor's |
| Patterns.TruncRemTwo | src/primitives/pattern.rs:15 | the remainder by 2 is zero exactly for even numbers, and -1 for odd negative ones |
| Patterns.ColorAt | src/primitives/pattern.rs:14-20 | the result is one of the pattern's two colours |
| Patterns.ColorAtParity | src/primitives/pattern.rs:14-20 | within the `i32` range the first colour falls exactly on the even bands `floor(x)`, negative bands included |
| Patterns.ColorAtSaturated | src/primitives/pattern.rs:15 | beyond the `i32` range the cast saturates: second colour above it, first colour below it |
| Patterns.ColorAtOnlyX | src/primitives/pattern.rs:14-20 | only x matters: points with the same x get the same colour |
| Patterns.ColorAtAlternates | src/primitives/pattern.rs:14-20 | neighbouring bands get both colours, and bands two apart agree |
| Patterns.OriginExample | src/primitives/pattern_test.rs:8-13 | the origin takes the first colour |
| Patterns.JustBelowZeroExample | src/primitives/pattern.rs:15 | just left of the origin `floor(x)` is -1, whose remainder is -1, so the second colour |
| Worlds.New | src/primitives/world.rs:83-88 | a new builder has no lights and no objects |
| Worlds.AddLight | src/primitives/world.rs:102-105 | the light is appended at the end; earlier lights and all objects are untouched |
| Worlds.AddObject | src/primitives/world.rs:107-110 | the object is appended at the end; earlier objects and all lights are untouched |
| Worlds.ResetLights | src/primitives/world.rs:97-100 | no lights remain; the objects are untouched |
| Worlds.Generate | src/primitives/world.rs:90-95 | both lists carry over unchanged and in order, and `lights()`/`objects()` read them back |
| Worlds.AddLightsAppends | src/primitives/world.rs:102-105 | chained `add_light` calls append their lights in call order and leave the objects alone |
| Worlds.AddObjectsAppends | src/primitives/world.rs:107-110 | chained `add_object` calls append their objects in call order and leave the lights alone |
| Worlds.BuildScene | src/primitives/world.rs:83-110 | building any list of lights and objects from a new builder generates exactly those lists |
| Worlds.BuilderLaws | src/primitives/world.rs:97-110 | adding a light and adding an object commute; `reset_lights` forgets a light just added and is idempotent |
| Worlds.EmptyWorld | src/primitives/world_test.rs:7-13 | a new world, generated, has no lights and no objects |
| Worlds.Gather | src/primitives/world.rs:22-27 | the flattened map succeeds exactly when no object's intersection panics |
| Worlds.GatherMembers | src/primitives/world.rs:22-27 | an element is in the flattened list exactly when it is in one object's output |
| Worlds.AllIntersections | src/primitives/world.rs:22-27 | the gathered intersections exist exactly when every object's `intersects` succeeds |
| Worlds.AllIntersectionsMembers | src/primitives/world.rs:22-27 | an intersection is gathered exactly when it is one of some object's intersections with the ray |
| Worlds.RayIntersects | src/primitives/world.rs:21-30 | the result is sorted by `t` and a permutation of all the objects' intersections; it panics exactly when some object's does |
| Worlds.RayIntersectsMembers | src/primitives/world.rs:21-30 | every reported intersection belongs to some object of the world, and every one of theirs is reported |
| Worlds.NoObjectsNoIntersections | src/primitives/world.rs:21-30 | a world without objects reports no intersections |
| Worlds.TwoSphereWorld | src/primitives/world_test.rs:33-44 | two objects hit at a, b and c, d with c and d nested inside give the four hits in the order a, c, d, b |
| Worlds.ColorAt | src/primitives/world.rs:43-55 | `color_at` panics exactly when `ray_intersects` does |
| Worlds.ColorAtHit | src/primitives/world.rs:43-55 | black exactly when every intersection lies behind the ray; otherwise the shade of an intersection with the least non-negative `t` |
| Worlds.Blocked | src/primitives/world.rs:63-71 | the shadow test for one light panics exactly when `ray_intersects` does |
| Worlds.BlockedMeaning | src/primitives/world.rs:57-73 | a shadow ray is blocked exactly when some object is met at a non-negative `t` short of the light |
| Worlds.AllOfMeaning | src/primitives/world.rs:58 | Rust's `all`: true when the closure is true for every light, false or panicking at the first light that is not |
| Worlds.IsShadowed | src/primitives/world.rs:57-73 | a world without lights is shadowed |
| Worlds.IsShadowedMeaning | src/primitives/world.rs:57-73 | without panics, a point is shadowed exactly when every light's shadow ray meets an object before the light |
| Cameras.PixelSizeMeaning | src/primitives/camera.rs:52-70 | the pixel size is the full view spread over the longer side, and the pixels tile the half width and half height exactly |
| Cameras.PixelSizeExamples | src/primitives/camera_test.rs:18-25 | 200×125 and 125×200 canvases with a quarter-turn field of view have pixel size 0.01 |
| Cameras.New | src/primitives/camera.rs:22-34 | size, field of view and transform read back as given; the pixel geometry follows the half view; the stored inverse undoes the transform; `unwrap` panics exactly for a singular transform |
| Cameras.ViewPoint | src/primitives/camera.rs:78-84 | pixel centres lie on the canvas plane `z = -1` |
| Cameras.RayForPixelMeaning | src/primitives/camera.rs:76-94 | the camera transform takes the ray's origin to the eye, and its direction is the normalized world vector the transform takes to the eye-to-pixel direction |
| Cameras.CentrePixel | src/primitives/camera.rs:76-84 | on odd dimensions the middle pixel's centre is straight ahead at (0, 0, -1) |
| Cameras.CentreRayExample | src/primitives/camera_test.rs:27-33 | on a 201×101 canvas with the identity transform the centre ray starts at the origin and points down -z |
| Cameras.CornerRayExample | src/primitives/camera_test.rs:35-45 | the corner ray starts at the origin towards (200/201, 100/201, -1) before normalizing |
| Cameras.TransformedCameraOrigin | src/primitives/camera_test.rs:47-58 | with the transform built as written, the centre ray cannot start at the test's expected (0, 2, -5) |
| Cameras.CorrectedCameraOrigin | src/primitives/camera_test.rs:47-58 | with the transform `rotation_y(π/4) * translation(0, -2, 5)`, the centre ray starts exactly at the test's expected (0, 2, -5) |
| Cameras.Render | src/primitives/camera.rs:96-118 | a valid canvas of the camera's size whose every pixel is the world's colour along that pixel's ray; it panics exactly when allocation or some pixel's colour does |
| Cameras.Paint | src/primitives/camera.rs:97-117 | the render loops for any colouring: a canvas of the given size with every pixel the colouring's value |
| Cameras.WriteKeeping | src/primitives/camera.rs:115 | writing one pixel sets it and leaves every other pixel of a valid canvas unchanged |

## Left out

- `src/worker.rs`: a thread, channels and cancellation. Its whole point is concurrency, which this model does not cover.
- The rayon `par_iter` in `Camera::render`: modelled as a sequential loop. The colours do not depend on the order they are computed in.
- IEEE-754 details: rounding, NaN, infinities and signed zeros. The model computes with exact reals.
  - Cases that divide by zero are preconditions or `None`, as the lines below say.
  - The `partial_cmp().unwrap()` panic on a NaN time does not arise over reals.
- `float_compare::round` and the tests' `round_matrix`: they only round printed values.
- Test assertions that depend on a true square root, tangent or power are restated with these as parameters, or left out. Examples are the unit-length `normalize` outputs and the corner-ray direction, and the rendered colour (0.38066, 0.47583, 0.28550).
- The render test (src/primitives/camera_test.rs:60-76): its colour comes from `shade_hit`, which needs `prepare_computations` and the spheres' materials. Neither is part of this model.
- `prepare_computations`, `Shape::plane`, `Shape::sphere(transform, material)`, `normal_at` and `Tuple::set_*`: called from world.rs, ray_test.rs, cornell_box.rs and vector.rs but defined in none of the modelled files; they are not part of this model.
- `World::shade_hit` (src/primitives/world.rs:32-41): defined in world.rs, but it lights the hit through `comps.object().material()`, which src/primitives/shape.rs does not define, and it takes the result of `prepare_computations`. The shading of a hit therefore stays the parameter `shade` of `Worlds.ColorAt`.
- `World::default`: it builds spheres through `Shape::sphere(transform, material)`, which src/primitives/shape.rs does not define. `Rays.HalfSphereExample` and `Worlds.TwoSphereWorld` state its intersection test without it.
- `Canvas::downsample`, `sample_at` and `float_pixel_at` in src/image/canvas.rs: float-to-pixel coordinate casting for anti-aliasing, outside the core.
- src/canvas/canvas_writer.rs, src/main.rs and src/cornell_box.rs: file I/O, the entry point and demo scene wiring.
- The `mod.rs` files: module wiring only.
- Accessors that return a field (`x()`, `origin()`, `t()`, `width()` and the like) are datatype fields in the model.
- The shape tests in src/primitives/shape_test.rs: they exercise `normal_at` and materials, which src/primitives/shape.rs does not define.
- Vectors.Normalize: requires a non-zero length. The source divides by zero there and yields NaN components.
- Tuples.Div: requires a non-zero divisor for the same reason.
- Transforms.View: requires non-zero lengths for the forward and up vectors. A zero length makes the source's `normalize` divide by zero.
- Cameras.PixelSizes: requires a non-zero width and height. The source divides by them and gets an infinity or NaN.
- Cameras.New: requires a non-zero width and height, as `PixelSizes` does. Its `unwrap` panic on a singular transform is modelled.
- Rays.IntersectObjectSpace: a zero direction gives `a = 0`. The source then divides 0 by 0 and returns two NaN intersections; the model returns `None`.
- Matrix3x3.Submatrix and Matrix4x4.Submatrix: take only in-range rows and columns. `submatrix_data` is not part of this model; its tests use only in-range indices.
- Rotations, `view` and `normalize` take the cosine and sine, or the lengths, as inputs. A property that needs them to be consistent (`c * c + s * s == 1`, `len * len == |v|^2`) states that as a precondition.

## Findings

| source | as written | input that shows it | evidently intended | confidence | as-written member | corrected member |
|---|---|---|---|---|---|---|
| src/maths/matrix_methods.rs:12 | the guard panics only when `row > size` or `col > size`, so `col == size` is accepted | `at(0, 4)` on a 4×4 matrix reads entry (1, 0) instead of panicking | panic when `row >= size` or `col >= size`: a size×size row-major slice has coordinates 0 to size - 1 only, so column `size` is not an entry of row `row` but entry (row + 1, 0) | not executed; high | MatrixMethods.AtGuardQuirk | MatrixMethods.CheckedAt |
| src/image/color.rs:49-55 | each channel is cast with `(255.0 * c) as u32` and shifted, with no clamp | green 2.0 gives 510, whose ninth bit spills into the red byte: `to_u32` of (0, 2, 0) has red byte 1 and green byte 0xFE | clamp each channel to [0, 1] first, as `get_save_buffer` does, so each channel fills exactly its own byte | not executed; medium | Colors.ToU32Spills | Colors.ToU32ClampedPacks |
| src/maths/matrix_test.rs:444-451 | the fluent test writes `identity().translate(10, 5, 7).scale(5, 5, 5).rotate_x(π/2)` and expects (15, 0, 7), but each fluent call multiplies on the left, so the rotation acts last | the point (1, 0, 1): the chain as written takes it to (55, -40, 25) | the fluent calls in the order they act, rotation first and translation last, which gives the `C * B * A` value (15, 0, 7) | not executed; high | TransformExamples.FluentChainExample | TransformExamples.ReversedFluentChainExample |
| src/primitives/camera_test.rs:47-58 | the test builds the camera transform as `rotation_y(π/4).translate(0, -2, 5)`, which makes the rotation act first, and expects the centre ray to start at (0, 2, -5) | pixel (100, 50) of the 201×101 camera: the transform as built does not take (0, 2, -5) to the eye, so the ray starts elsewhere | the transform `rotation_y(π/4) * translation(0, -2, 5)`, under which the ray starts at (0, 2, -5) | not executed; high | Cameras.TransformedCameraOrigin | Cameras.CorrectedCameraOrigin |
