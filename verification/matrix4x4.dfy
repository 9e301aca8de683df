/** Row-major 4x4 matrices (src/maths/matrix4x4.rs): construction, access,
    products, transpose, the cofactor determinant and the adjugate inverse. */
module Matrix4x4 {
  import opened Wrappers
  import MM = MatrixMethods
  import M3 = Matrix3x3

  type Matrix = s: seq<real> | |s| == 16 witness
    [0.0, 0.0, 0.0, 0.0, 0.0, 0.0, 0.0, 0.0, 0.0, 0.0, 0.0, 0.0, 0.0, 0.0, 0.0, 0.0]

  /** The entry in row `r` and column `c`. */
  function Get(m: Matrix, r: nat, c: nat): real
    requires r < 4 && c < 4
  {
    m[r * 4 + c]
  }

  /** `Matrix4x4::new`: the arguments are stored row by row. */
  function New(m00: real, m01: real, m02: real, m03: real,
               m10: real, m11: real, m12: real, m13: real,
               m20: real, m21: real, m22: real, m23: real,
               m30: real, m31: real, m32: real, m33: real): (m: Matrix)
    ensures Get(m, 0, 0) == m00 && Get(m, 0, 1) == m01 && Get(m, 0, 2) == m02 && Get(m, 0, 3) == m03
    ensures Get(m, 1, 0) == m10 && Get(m, 1, 1) == m11 && Get(m, 1, 2) == m12 && Get(m, 1, 3) == m13
    ensures Get(m, 2, 0) == m20 && Get(m, 2, 1) == m21 && Get(m, 2, 2) == m22 && Get(m, 2, 3) == m23
    ensures Get(m, 3, 0) == m30 && Get(m, 3, 1) == m31 && Get(m, 3, 2) == m32 && Get(m, 3, 3) == m33
  {
    [m00, m01, m02, m03, m10, m11, m12, m13, m20, m21, m22, m23, m30, m31, m32, m33]
  }

  /** `Matrix4x4::new_empty`: all zeros. */
  const Empty: Matrix := New(0.0, 0.0, 0.0, 0.0, 0.0, 0.0, 0.0, 0.0, 0.0, 0.0, 0.0, 0.0, 0.0, 0.0, 0.0, 0.0)

  /** `Matrix4x4::identity`. */
  function Identity(): (m: Matrix)
    ensures forall r: nat, c: nat :: r < 4 && c < 4 ==> Get(m, r, c) == if r == c then 1.0 else 0.0
  {
    New(1.0, 0.0, 0.0, 0.0, 0.0, 1.0, 0.0, 0.0, 0.0, 0.0, 1.0, 0.0, 0.0, 0.0, 0.0, 1.0)
  }

  /** `Matrix4x4::at`: the shared accessor with size 4. Inside the matrix it
      reads the entry; its guard also lets column 4 through, which on any
      row but the last reads the first entry of the next row; everything
      else panics. */
  function At(m: Matrix, row: nat, col: nat): (r: Option<real>)
    ensures row < 4 && col < 4 ==> r == Some(Get(m, row, col))
    ensures row + 1 < 4 && col == 4 ==> r == Some(Get(m, row + 1, 0))
    ensures r.Some? <==> (row < 4 && col < 4) || (row + 1 < 4 && col == 4)
  {
    MM.At(MM.New(m, 4), row, col)
  }

  /** Writing one entry through its row-major index, for an index that is
      inside the storage. */
  function Update(m: Matrix, row: nat, col: nat, val: real): (r: Matrix)
    requires row * 4 + col < 16
    ensures r[row * 4 + col] == val
    ensures forall i :: 0 <= i < 16 && i != row * 4 + col ==> r[i] == m[i]
  {
    m[row * 4 + col := val]
  }

  /** `Matrix4x4::set_at`: writes `data[row * 4 + col]`, with no check of
      `row` and `col` of its own, so that `(0, 5)` writes entry (1, 1); an
      index past the storage panics (`None`). */
  function SetAt(m: Matrix, row: nat, col: nat, val: real): (r: Option<Matrix>)
    ensures r.Some? <==> row * 4 + col < 16
    ensures r.Some? ==> r.value == Update(m, row, col, val)
  {
    if row * 4 + col < 16 then Some(Update(m, row, col, val)) else None
  }

  /** One entry of a product: row `r` of `a` against column `c` of `b`. */
  function ProductEntry(a: Matrix, b: Matrix, r: nat, c: nat): real
    requires r < 4 && c < 4
  {
    Get(a, r, 0) * Get(b, 0, c) + Get(a, r, 1) * Get(b, 1, c)
      + Get(a, r, 2) * Get(b, 2, c) + Get(a, r, 3) * Get(b, 3, c)
  }

  /** The sum of four pairwise products. */
  function Dot4(a0: real, a1: real, a2: real, a3: real, b0: real, b1: real, b2: real, b3: real): real
  {
    a0 * b0 + a1 * b1 + a2 * b2 + a3 * b3
  }

  /** `Mul for Matrix4x4`: the matrix product. */
  function Mul(a: Matrix, b: Matrix): (p: Matrix)
    ensures forall r: nat, c: nat :: r < 4 && c < 4 ==> Get(p, r, c) == ProductEntry(a, b, r, c)
  {
    New(ProductEntry(a, b, 0, 0), ProductEntry(a, b, 0, 1), ProductEntry(a, b, 0, 2), ProductEntry(a, b, 0, 3),
        ProductEntry(a, b, 1, 0), ProductEntry(a, b, 1, 1), ProductEntry(a, b, 1, 2), ProductEntry(a, b, 1, 3),
        ProductEntry(a, b, 2, 0), ProductEntry(a, b, 2, 1), ProductEntry(a, b, 2, 2), ProductEntry(a, b, 2, 3),
        ProductEntry(a, b, 3, 0), ProductEntry(a, b, 3, 1), ProductEntry(a, b, 3, 2), ProductEntry(a, b, 3, 3))
  }

  /** `Matrix4x4::transpose`: entry (r, c) of the result is entry (c, r). */
  function Transpose(m: Matrix): (t: Matrix)
    ensures forall r: nat, c: nat :: r < 4 && c < 4 ==> Get(t, r, c) == Get(m, c, r)
  {
    New(m[0], m[4], m[8], m[12], m[1], m[5], m[9], m[13], m[2], m[6], m[10], m[14], m[3], m[7], m[11], m[15])
  }

  /** Two matrices are equal when all their entries are. */
  lemma Extensionality(a: Matrix, b: Matrix)
    requires forall r: nat, c: nat :: r < 4 && c < 4 ==> Get(a, r, c) == Get(b, r, c)
    ensures a == b
  {
    forall k | 0 <= k < 16
      ensures a[k] == b[k]
    {
      assert Get(a, k / 4, k % 4) == Get(b, k / 4, k % 4);
    }
  }

  /** The identity is a unit on both sides of the product. */
  lemma IdentityUnit(m: Matrix)
    ensures Mul(Identity(), m) == m
    ensures Mul(m, Identity()) == m
  {
    Extensionality(Mul(Identity(), m), m);
    Extensionality(Mul(m, Identity()), m);
  }

  /** The product is associative. */
  lemma MulAssociative(a: Matrix, b: Matrix, c: Matrix)
    ensures Mul(Mul(a, b), c) == Mul(a, Mul(b, c))
  {
    var ab, bc := Mul(a, b), Mul(b, c);
    forall r: nat, col: nat | r < 4 && col < 4
      ensures Get(Mul(ab, c), r, col) == Get(Mul(a, bc), r, col)
    {
      AssociativeEntry(a, b, c, ab, bc, r, col);
    }
    Extensionality(Mul(ab, c), Mul(a, bc));
  }

  /** One entry of the associativity law, for `ab` and `bc` that agree with
      the products `a b` and `b c` on the row and column involved: both sides
      expand to the same sum of sixteen triple products. */
  lemma AssociativeEntry(a: Matrix, b: Matrix, c: Matrix, ab: Matrix, bc: Matrix, r: nat, col: nat)
    requires r < 4 && col < 4
    requires forall k: nat :: k < 4 ==> Get(ab, r, k) == ProductEntry(a, b, r, k)
    requires forall k: nat :: k < 4 ==> Get(bc, k, col) == ProductEntry(b, c, k, col)
    ensures ProductEntry(ab, c, r, col) == ProductEntry(a, bc, r, col)
  {
    assert Get(ab, r, 0) == ProductEntry(a, b, r, 0) && Get(ab, r, 1) == ProductEntry(a, b, r, 1);
    assert Get(ab, r, 2) == ProductEntry(a, b, r, 2) && Get(ab, r, 3) == ProductEntry(a, b, r, 3);
    assert Get(bc, 0, col) == ProductEntry(b, c, 0, col) && Get(bc, 1, col) == ProductEntry(b, c, 1, col);
    assert Get(bc, 2, col) == ProductEntry(b, c, 2, col) && Get(bc, 3, col) == ProductEntry(b, c, 3, col);
    SumOfTripleProducts(
      Get(a, r, 0), Get(a, r, 1), Get(a, r, 2), Get(a, r, 3),
      Get(b, 0, 0), Get(b, 0, 1), Get(b, 0, 2), Get(b, 0, 3),
      Get(b, 1, 0), Get(b, 1, 1), Get(b, 1, 2), Get(b, 1, 3),
      Get(b, 2, 0), Get(b, 2, 1), Get(b, 2, 2), Get(b, 2, 3),
      Get(b, 3, 0), Get(b, 3, 1), Get(b, 3, 2), Get(b, 3, 3),
      Get(c, 0, col), Get(c, 1, col), Get(c, 2, col), Get(c, 3, col));
  }

  /** `(x B) y == x (B y)` for a row vector `x`, a 4x4 block `B` and a column
      vector `y`. */
  lemma SumOfTripleProducts(
    x0: real, x1: real, x2: real, x3: real,
    b00: real, b01: real, b02: real, b03: real,
    b10: real, b11: real, b12: real, b13: real,
    b20: real, b21: real, b22: real, b23: real,
    b30: real, b31: real, b32: real, b33: real,
    y0: real, y1: real, y2: real, y3: real)
    ensures (x0 * b00 + x1 * b10 + x2 * b20 + x3 * b30) * y0
          + (x0 * b01 + x1 * b11 + x2 * b21 + x3 * b31) * y1
          + (x0 * b02 + x1 * b12 + x2 * b22 + x3 * b32) * y2
          + (x0 * b03 + x1 * b13 + x2 * b23 + x3 * b33) * y3
         == x0 * (b00 * y0 + b01 * y1 + b02 * y2 + b03 * y3)
          + x1 * (b10 * y0 + b11 * y1 + b12 * y2 + b13 * y3)
          + x2 * (b20 * y0 + b21 * y1 + b22 * y2 + b23 * y3)
          + x3 * (b30 * y0 + b31 * y1 + b32 * y2 + b33 * y3)
  {
  }

  /** Transposition is an involution and leaves the identity alone. */
  lemma TransposeInvolution(a: Matrix)
    ensures Transpose(Transpose(a)) == a
    ensures Transpose(Identity()) == Identity()
  {
    Extensionality(Transpose(Transpose(a)), a);
    Extensionality(Transpose(Identity()), Identity());
  }

  /** Transposition reverses products. */
  lemma TransposeMul(a: Matrix, b: Matrix)
    ensures Transpose(Mul(a, b)) == Mul(Transpose(b), Transpose(a))
  {
    var ab, ta, tb := Mul(a, b), Transpose(a), Transpose(b);
    forall r: nat, c: nat | r < 4 && c < 4
      ensures Get(Transpose(ab), r, c) == Get(Mul(tb, ta), r, c)
    {
      TransposeEntry(a, b, ta, tb, r, c);
    }
    Extensionality(Transpose(ab), Mul(tb, ta));
  }

  /** One entry of `TransposeMul`, for `ta` and `tb` that agree with the
      transposes on the row and column involved. */
  lemma TransposeEntry(a: Matrix, b: Matrix, ta: Matrix, tb: Matrix, r: nat, c: nat)
    requires r < 4 && c < 4
    requires forall k: nat :: k < 4 ==> Get(ta, k, c) == Get(a, c, k)
    requires forall k: nat :: k < 4 ==> Get(tb, r, k) == Get(b, k, r)
    ensures ProductEntry(a, b, c, r) == ProductEntry(tb, ta, r, c)
  {
    assert Get(ta, 0, c) == Get(a, c, 0) && Get(ta, 1, c) == Get(a, c, 1);
    assert Get(ta, 2, c) == Get(a, c, 2) && Get(ta, 3, c) == Get(a, c, 3);
    assert Get(tb, r, 0) == Get(b, 0, r) && Get(tb, r, 1) == Get(b, 1, r);
    assert Get(tb, r, 2) == Get(b, 2, r) && Get(tb, r, 3) == Get(b, 3, r);
  }

  /** The 3x3 matrix left after removing row `row` and column `col`. */
  function Submatrix(m: Matrix, row: nat, col: nat): (s: M3.Matrix)
    requires row < 4 && col < 4
    ensures forall i: nat, j: nat :: i < 3 && j < 3 ==>
              M3.Get(s, i, j) == Get(m, MM.Skip(row, i), MM.Skip(col, j))
  {
    M3.New(Get(m, MM.Skip(row, 0), MM.Skip(col, 0)), Get(m, MM.Skip(row, 0), MM.Skip(col, 1)),
           Get(m, MM.Skip(row, 0), MM.Skip(col, 2)),
           Get(m, MM.Skip(row, 1), MM.Skip(col, 0)), Get(m, MM.Skip(row, 1), MM.Skip(col, 1)),
           Get(m, MM.Skip(row, 1), MM.Skip(col, 2)),
           Get(m, MM.Skip(row, 2), MM.Skip(col, 0)), Get(m, MM.Skip(row, 2), MM.Skip(col, 1)),
           Get(m, MM.Skip(row, 2), MM.Skip(col, 2)))
  }

  /** `Matrix4x4::minor`: the determinant of the submatrix. */
  function Minor(m: Matrix, row: nat, col: nat): real
    requires row < 4 && col < 4
  {
    M3.Determinant(Submatrix(m, row, col))
  }

  /** `Matrix4x4::cofactor`: the minor, negated when `row + col` is odd. */
  function Cofactor(m: Matrix, row: nat, col: nat): (c: real)
    requires row < 4 && col < 4
    ensures (row + col) % 2 == 0 ==> c == Minor(m, row, col)
    ensures (row + col) % 2 == 1 ==> c == -Minor(m, row, col)
  {
    if (row + col) % 2 == 0 then Minor(m, row, col) else Minor(m, row, col) * -1.0
  }

  /** `Matrix4x4::determinant`: cofactor expansion along row 0. */
  function Determinant(m: Matrix): real
  {
    0.0 + Get(m, 0, 0) * Cofactor(m, 0, 0) + Get(m, 0, 1) * Cofactor(m, 0, 1)
        + Get(m, 0, 2) * Cofactor(m, 0, 2) + Get(m, 0, 3) * Cofactor(m, 0, 3)
  }

  /** The entries of row `i` against the cofactors of row `j`. */
  function RowExpansion(m: Matrix, i: nat, j: nat): real
    requires i < 4 && j < 4
  {
    Dot4(Get(m, i, 0), Get(m, i, 1), Get(m, i, 2), Get(m, i, 3),
         Cofactor(m, j, 0), Cofactor(m, j, 1), Cofactor(m, j, 2), Cofactor(m, j, 3))
  }

  /** The entries of column `i` against the cofactors of column `j`. */
  function ColumnExpansion(m: Matrix, i: nat, j: nat): real
    requires i < 4 && j < 4
  {
    Dot4(Get(m, 0, i), Get(m, 1, i), Get(m, 2, i), Get(m, 3, i),
         Cofactor(m, 0, j), Cofactor(m, 1, j), Cofactor(m, 2, j), Cofactor(m, 3, j))
  }

  /** The Leibniz formula applied to a matrix. */
  function Leibniz(m: Matrix): real
  {
    DetPoly(m[0], m[1], m[2], m[3], m[4], m[5], m[6], m[7],
            m[8], m[9], m[10], m[11], m[12], m[13], m[14], m[15])
  }

  /** The 24-term Leibniz formula over the sixteen entries. */
  function DetPoly(m00: real, m01: real, m02: real, m03: real, m10: real, m11: real, m12: real, m13: real, m20: real, m21: real, m22: real, m23: real, m30: real, m31: real, m32: real, m33: real): real
  {
      m00 * m11 * m22 * m33
      - m00 * m11 * m23 * m32
      - m00 * m12 * m21 * m33
      + m00 * m12 * m23 * m31
      + m00 * m13 * m21 * m32
      - m00 * m13 * m22 * m31
      - m01 * m10 * m22 * m33
      + m01 * m10 * m23 * m32
      + m01 * m12 * m20 * m33
      - m01 * m12 * m23 * m30
      - m01 * m13 * m20 * m32
      + m01 * m13 * m22 * m30
      + m02 * m10 * m21 * m33
      - m02 * m10 * m23 * m31
      - m02 * m11 * m20 * m33
      + m02 * m11 * m23 * m30
      + m02 * m13 * m20 * m31
      - m02 * m13 * m21 * m30
      - m03 * m10 * m21 * m32
      + m03 * m10 * m22 * m31
      + m03 * m11 * m20 * m32
      - m03 * m11 * m22 * m30
      - m03 * m12 * m20 * m31
      + m03 * m12 * m21 * m30
  }

  /** Expanding along row 0, with that row replaced by `a`, gives the
      Leibniz formula of the matrix with the replaced row. */
  lemma RowPoly0(m00: real, m01: real, m02: real, m03: real, m10: real, m11: real, m12: real, m13: real, m20: real, m21: real, m22: real, m23: real, m30: real, m31: real, m32: real, m33: real, a0: real, a1: real, a2: real, a3: real)
    ensures 0.0 + a0 * M3.DetPoly(m11, m12, m13, m21, m22, m23, m31, m32, m33)
          - a1 * M3.DetPoly(m10, m12, m13, m20, m22, m23, m30, m32, m33)
          + a2 * M3.DetPoly(m10, m11, m13, m20, m21, m23, m30, m31, m33)
          - a3 * M3.DetPoly(m10, m11, m12, m20, m21, m22, m30, m31, m32)
         == DetPoly(a0, a1, a2, a3, m10, m11, m12, m13, m20, m21, m22, m23, m30, m31, m32, m33)
  {
  }

  /** Expanding along row 1, with that row replaced by `a`, gives the
      Leibniz formula of the matrix with the replaced row. */
  lemma RowPoly1(m00: real, m01: real, m02: real, m03: real, m10: real, m11: real, m12: real, m13: real, m20: real, m21: real, m22: real, m23: real, m30: real, m31: real, m32: real, m33: real, a0: real, a1: real, a2: real, a3: real)
    ensures 0.0 - a0 * M3.DetPoly(m01, m02, m03, m21, m22, m23, m31, m32, m33)
          + a1 * M3.DetPoly(m00, m02, m03, m20, m22, m23, m30, m32, m33)
          - a2 * M3.DetPoly(m00, m01, m03, m20, m21, m23, m30, m31, m33)
          + a3 * M3.DetPoly(m00, m01, m02, m20, m21, m22, m30, m31, m32)
         == DetPoly(m00, m01, m02, m03, a0, a1, a2, a3, m20, m21, m22, m23, m30, m31, m32, m33)
  {
  }

  /** Expanding along row 2, with that row replaced by `a`, gives the
      Leibniz formula of the matrix with the replaced row. */
  lemma RowPoly2(m00: real, m01: real, m02: real, m03: real, m10: real, m11: real, m12: real, m13: real, m20: real, m21: real, m22: real, m23: real, m30: real, m31: real, m32: real, m33: real, a0: real, a1: real, a2: real, a3: real)
    ensures 0.0 + a0 * M3.DetPoly(m01, m02, m03, m11, m12, m13, m31, m32, m33)
          - a1 * M3.DetPoly(m00, m02, m03, m10, m12, m13, m30, m32, m33)
          + a2 * M3.DetPoly(m00, m01, m03, m10, m11, m13, m30, m31, m33)
          - a3 * M3.DetPoly(m00, m01, m02, m10, m11, m12, m30, m31, m32)
         == DetPoly(m00, m01, m02, m03, m10, m11, m12, m13, a0, a1, a2, a3, m30, m31, m32, m33)
  {
  }

  /** Expanding along row 3, with that row replaced by `a`, gives the
      Leibniz formula of the matrix with the replaced row. */
  lemma RowPoly3(m00: real, m01: real, m02: real, m03: real, m10: real, m11: real, m12: real, m13: real, m20: real, m21: real, m22: real, m23: real, m30: real, m31: real, m32: real, m33: real, a0: real, a1: real, a2: real, a3: real)
    ensures 0.0 - a0 * M3.DetPoly(m01, m02, m03, m11, m12, m13, m21, m22, m23)
          + a1 * M3.DetPoly(m00, m02, m03, m10, m12, m13, m20, m22, m23)
          - a2 * M3.DetPoly(m00, m01, m03, m10, m11, m13, m20, m21, m23)
          + a3 * M3.DetPoly(m00, m01, m02, m10, m11, m12, m20, m21, m22)
         == DetPoly(m00, m01, m02, m03, m10, m11, m12, m13, m20, m21, m22, m23, a0, a1, a2, a3)
  {
  }


  /** Expansion along row 0 with that row replaced by `a`. */
  lemma ExpandRow0(m: Matrix, a0: real, a1: real, a2: real, a3: real)
    ensures Dot4(a0, a1, a2, a3, Cofactor(m, 0, 0), Cofactor(m, 0, 1), Cofactor(m, 0, 2), Cofactor(m, 0, 3))
         == DetPoly(a0, a1, a2, a3, m[4], m[5], m[6], m[7], m[8], m[9], m[10], m[11], m[12], m[13], m[14], m[15])
  {
    CofactorAt00(m);
    CofactorAt01(m);
    CofactorAt02(m);
    CofactorAt03(m);
    RowPoly0(m[0], m[1], m[2], m[3], m[4], m[5], m[6], m[7], m[8], m[9], m[10], m[11], m[12], m[13], m[14], m[15], a0, a1, a2, a3);
  }

  /** Row 0's cofactors against the entries of row `i`. */
  lemma LaplaceRow0(m: Matrix, i: nat)
    requires i < 4
    ensures RowExpansion(m, i, 0) == if i == 0 then Leibniz(m) else 0.0
  {
    if i == 0 {
      ExpandRow0(m, Get(m, 0, 0), Get(m, 0, 1), Get(m, 0, 2), Get(m, 0, 3));
    } else if i == 1 {
      ExpandRow0(m, Get(m, 1, 0), Get(m, 1, 1), Get(m, 1, 2), Get(m, 1, 3));
      CopyRow1To0(m[0], m[1], m[2], m[3], m[4], m[5], m[6], m[7], m[8], m[9], m[10], m[11], m[12], m[13], m[14], m[15]);
    } else if i == 2 {
      ExpandRow0(m, Get(m, 2, 0), Get(m, 2, 1), Get(m, 2, 2), Get(m, 2, 3));
      CopyRow2To0(m[0], m[1], m[2], m[3], m[4], m[5], m[6], m[7], m[8], m[9], m[10], m[11], m[12], m[13], m[14], m[15]);
    } else {
      ExpandRow0(m, Get(m, 3, 0), Get(m, 3, 1), Get(m, 3, 2), Get(m, 3, 3));
      CopyRow3To0(m[0], m[1], m[2], m[3], m[4], m[5], m[6], m[7], m[8], m[9], m[10], m[11], m[12], m[13], m[14], m[15]);
    }
  }

  /** Expansion along row 1 with that row replaced by `a`. */
  lemma ExpandRow1(m: Matrix, a0: real, a1: real, a2: real, a3: real)
    ensures Dot4(a0, a1, a2, a3, Cofactor(m, 1, 0), Cofactor(m, 1, 1), Cofactor(m, 1, 2), Cofactor(m, 1, 3))
         == DetPoly(m[0], m[1], m[2], m[3], a0, a1, a2, a3, m[8], m[9], m[10], m[11], m[12], m[13], m[14], m[15])
  {
    CofactorAt10(m);
    CofactorAt11(m);
    CofactorAt12(m);
    CofactorAt13(m);
    RowPoly1(m[0], m[1], m[2], m[3], m[4], m[5], m[6], m[7], m[8], m[9], m[10], m[11], m[12], m[13], m[14], m[15], a0, a1, a2, a3);
  }

  /** Row 1's cofactors against the entries of row `i`. */
  lemma LaplaceRow1(m: Matrix, i: nat)
    requires i < 4
    ensures RowExpansion(m, i, 1) == if i == 1 then Leibniz(m) else 0.0
  {
    if i == 0 {
      ExpandRow1(m, Get(m, 0, 0), Get(m, 0, 1), Get(m, 0, 2), Get(m, 0, 3));
      CopyRow0To1(m[0], m[1], m[2], m[3], m[4], m[5], m[6], m[7], m[8], m[9], m[10], m[11], m[12], m[13], m[14], m[15]);
    } else if i == 1 {
      ExpandRow1(m, Get(m, 1, 0), Get(m, 1, 1), Get(m, 1, 2), Get(m, 1, 3));
    } else if i == 2 {
      ExpandRow1(m, Get(m, 2, 0), Get(m, 2, 1), Get(m, 2, 2), Get(m, 2, 3));
      CopyRow2To1(m[0], m[1], m[2], m[3], m[4], m[5], m[6], m[7], m[8], m[9], m[10], m[11], m[12], m[13], m[14], m[15]);
    } else {
      ExpandRow1(m, Get(m, 3, 0), Get(m, 3, 1), Get(m, 3, 2), Get(m, 3, 3));
      CopyRow3To1(m[0], m[1], m[2], m[3], m[4], m[5], m[6], m[7], m[8], m[9], m[10], m[11], m[12], m[13], m[14], m[15]);
    }
  }

  /** Expansion along row 2 with that row replaced by `a`. */
  lemma ExpandRow2(m: Matrix, a0: real, a1: real, a2: real, a3: real)
    ensures Dot4(a0, a1, a2, a3, Cofactor(m, 2, 0), Cofactor(m, 2, 1), Cofactor(m, 2, 2), Cofactor(m, 2, 3))
         == DetPoly(m[0], m[1], m[2], m[3], m[4], m[5], m[6], m[7], a0, a1, a2, a3, m[12], m[13], m[14], m[15])
  {
    CofactorAt20(m);
    CofactorAt21(m);
    CofactorAt22(m);
    CofactorAt23(m);
    RowPoly2(m[0], m[1], m[2], m[3], m[4], m[5], m[6], m[7], m[8], m[9], m[10], m[11], m[12], m[13], m[14], m[15], a0, a1, a2, a3);
  }

  /** Row 2's cofactors against the entries of row `i`. */
  lemma LaplaceRow2(m: Matrix, i: nat)
    requires i < 4
    ensures RowExpansion(m, i, 2) == if i == 2 then Leibniz(m) else 0.0
  {
    if i == 0 {
      ExpandRow2(m, Get(m, 0, 0), Get(m, 0, 1), Get(m, 0, 2), Get(m, 0, 3));
      CopyRow0To2(m[0], m[1], m[2], m[3], m[4], m[5], m[6], m[7], m[8], m[9], m[10], m[11], m[12], m[13], m[14], m[15]);
    } else if i == 1 {
      ExpandRow2(m, Get(m, 1, 0), Get(m, 1, 1), Get(m, 1, 2), Get(m, 1, 3));
      CopyRow1To2(m[0], m[1], m[2], m[3], m[4], m[5], m[6], m[7], m[8], m[9], m[10], m[11], m[12], m[13], m[14], m[15]);
    } else if i == 2 {
      ExpandRow2(m, Get(m, 2, 0), Get(m, 2, 1), Get(m, 2, 2), Get(m, 2, 3));
    } else {
      ExpandRow2(m, Get(m, 3, 0), Get(m, 3, 1), Get(m, 3, 2), Get(m, 3, 3));
      CopyRow3To2(m[0], m[1], m[2], m[3], m[4], m[5], m[6], m[7], m[8], m[9], m[10], m[11], m[12], m[13], m[14], m[15]);
    }
  }

  /** Expansion along row 3 with that row replaced by `a`. */
  lemma ExpandRow3(m: Matrix, a0: real, a1: real, a2: real, a3: real)
    ensures Dot4(a0, a1, a2, a3, Cofactor(m, 3, 0), Cofactor(m, 3, 1), Cofactor(m, 3, 2), Cofactor(m, 3, 3))
         == DetPoly(m[0], m[1], m[2], m[3], m[4], m[5], m[6], m[7], m[8], m[9], m[10], m[11], a0, a1, a2, a3)
  {
    CofactorAt30(m);
    CofactorAt31(m);
    CofactorAt32(m);
    CofactorAt33(m);
    RowPoly3(m[0], m[1], m[2], m[3], m[4], m[5], m[6], m[7], m[8], m[9], m[10], m[11], m[12], m[13], m[14], m[15], a0, a1, a2, a3);
  }

  /** Row 3's cofactors against the entries of row `i`. */
  lemma LaplaceRow3(m: Matrix, i: nat)
    requires i < 4
    ensures RowExpansion(m, i, 3) == if i == 3 then Leibniz(m) else 0.0
  {
    if i == 0 {
      ExpandRow3(m, Get(m, 0, 0), Get(m, 0, 1), Get(m, 0, 2), Get(m, 0, 3));
      CopyRow0To3(m[0], m[1], m[2], m[3], m[4], m[5], m[6], m[7], m[8], m[9], m[10], m[11], m[12], m[13], m[14], m[15]);
    } else if i == 1 {
      ExpandRow3(m, Get(m, 1, 0), Get(m, 1, 1), Get(m, 1, 2), Get(m, 1, 3));
      CopyRow1To3(m[0], m[1], m[2], m[3], m[4], m[5], m[6], m[7], m[8], m[9], m[10], m[11], m[12], m[13], m[14], m[15]);
    } else if i == 2 {
      ExpandRow3(m, Get(m, 2, 0), Get(m, 2, 1), Get(m, 2, 2), Get(m, 2, 3));
      CopyRow2To3(m[0], m[1], m[2], m[3], m[4], m[5], m[6], m[7], m[8], m[9], m[10], m[11], m[12], m[13], m[14], m[15]);
    } else {
      ExpandRow3(m, Get(m, 3, 0), Get(m, 3, 1), Get(m, 3, 2), Get(m, 3, 3));
    }
  }

  /** The cofactors written out as 3x3 Leibniz formulas. */
  lemma CofactorAt00(m: Matrix)
    ensures Cofactor(m, 0, 0) == M3.DetPoly(m[5], m[6], m[7], m[9], m[10], m[11], m[13], m[14], m[15])
  {
    assert Submatrix(m, 0, 0) == M3.New(m[5], m[6], m[7], m[9], m[10], m[11], m[13], m[14], m[15]);
    M3.DeterminantIsLeibniz(Submatrix(m, 0, 0));
  }

  lemma CofactorAt01(m: Matrix)
    ensures Cofactor(m, 0, 1) == -M3.DetPoly(m[4], m[6], m[7], m[8], m[10], m[11], m[12], m[14], m[15])
  {
    assert Submatrix(m, 0, 1) == M3.New(m[4], m[6], m[7], m[8], m[10], m[11], m[12], m[14], m[15]);
    M3.DeterminantIsLeibniz(Submatrix(m, 0, 1));
  }

  lemma CofactorAt02(m: Matrix)
    ensures Cofactor(m, 0, 2) == M3.DetPoly(m[4], m[5], m[7], m[8], m[9], m[11], m[12], m[13], m[15])
  {
    assert Submatrix(m, 0, 2) == M3.New(m[4], m[5], m[7], m[8], m[9], m[11], m[12], m[13], m[15]);
    M3.DeterminantIsLeibniz(Submatrix(m, 0, 2));
  }

  lemma CofactorAt03(m: Matrix)
    ensures Cofactor(m, 0, 3) == -M3.DetPoly(m[4], m[5], m[6], m[8], m[9], m[10], m[12], m[13], m[14])
  {
    assert Submatrix(m, 0, 3) == M3.New(m[4], m[5], m[6], m[8], m[9], m[10], m[12], m[13], m[14]);
    M3.DeterminantIsLeibniz(Submatrix(m, 0, 3));
  }

  lemma CofactorAt10(m: Matrix)
    ensures Cofactor(m, 1, 0) == -M3.DetPoly(m[1], m[2], m[3], m[9], m[10], m[11], m[13], m[14], m[15])
  {
    assert Submatrix(m, 1, 0) == M3.New(m[1], m[2], m[3], m[9], m[10], m[11], m[13], m[14], m[15]);
    M3.DeterminantIsLeibniz(Submatrix(m, 1, 0));
  }

  lemma CofactorAt11(m: Matrix)
    ensures Cofactor(m, 1, 1) == M3.DetPoly(m[0], m[2], m[3], m[8], m[10], m[11], m[12], m[14], m[15])
  {
    assert Submatrix(m, 1, 1) == M3.New(m[0], m[2], m[3], m[8], m[10], m[11], m[12], m[14], m[15]);
    M3.DeterminantIsLeibniz(Submatrix(m, 1, 1));
  }

  lemma CofactorAt12(m: Matrix)
    ensures Cofactor(m, 1, 2) == -M3.DetPoly(m[0], m[1], m[3], m[8], m[9], m[11], m[12], m[13], m[15])
  {
    assert Submatrix(m, 1, 2) == M3.New(m[0], m[1], m[3], m[8], m[9], m[11], m[12], m[13], m[15]);
    M3.DeterminantIsLeibniz(Submatrix(m, 1, 2));
  }

  lemma CofactorAt13(m: Matrix)
    ensures Cofactor(m, 1, 3) == M3.DetPoly(m[0], m[1], m[2], m[8], m[9], m[10], m[12], m[13], m[14])
  {
    assert Submatrix(m, 1, 3) == M3.New(m[0], m[1], m[2], m[8], m[9], m[10], m[12], m[13], m[14]);
    M3.DeterminantIsLeibniz(Submatrix(m, 1, 3));
  }

  lemma CofactorAt20(m: Matrix)
    ensures Cofactor(m, 2, 0) == M3.DetPoly(m[1], m[2], m[3], m[5], m[6], m[7], m[13], m[14], m[15])
  {
    assert Submatrix(m, 2, 0) == M3.New(m[1], m[2], m[3], m[5], m[6], m[7], m[13], m[14], m[15]);
    M3.DeterminantIsLeibniz(Submatrix(m, 2, 0));
  }

  lemma CofactorAt21(m: Matrix)
    ensures Cofactor(m, 2, 1) == -M3.DetPoly(m[0], m[2], m[3], m[4], m[6], m[7], m[12], m[14], m[15])
  {
    assert Submatrix(m, 2, 1) == M3.New(m[0], m[2], m[3], m[4], m[6], m[7], m[12], m[14], m[15]);
    M3.DeterminantIsLeibniz(Submatrix(m, 2, 1));
  }

  lemma CofactorAt22(m: Matrix)
    ensures Cofactor(m, 2, 2) == M3.DetPoly(m[0], m[1], m[3], m[4], m[5], m[7], m[12], m[13], m[15])
  {
    assert Submatrix(m, 2, 2) == M3.New(m[0], m[1], m[3], m[4], m[5], m[7], m[12], m[13], m[15]);
    M3.DeterminantIsLeibniz(Submatrix(m, 2, 2));
  }

  lemma CofactorAt23(m: Matrix)
    ensures Cofactor(m, 2, 3) == -M3.DetPoly(m[0], m[1], m[2], m[4], m[5], m[6], m[12], m[13], m[14])
  {
    assert Submatrix(m, 2, 3) == M3.New(m[0], m[1], m[2], m[4], m[5], m[6], m[12], m[13], m[14]);
    M3.DeterminantIsLeibniz(Submatrix(m, 2, 3));
  }

  lemma CofactorAt30(m: Matrix)
    ensures Cofactor(m, 3, 0) == -M3.DetPoly(m[1], m[2], m[3], m[5], m[6], m[7], m[9], m[10], m[11])
  {
    assert Submatrix(m, 3, 0) == M3.New(m[1], m[2], m[3], m[5], m[6], m[7], m[9], m[10], m[11]);
    M3.DeterminantIsLeibniz(Submatrix(m, 3, 0));
  }

  lemma CofactorAt31(m: Matrix)
    ensures Cofactor(m, 3, 1) == M3.DetPoly(m[0], m[2], m[3], m[4], m[6], m[7], m[8], m[10], m[11])
  {
    assert Submatrix(m, 3, 1) == M3.New(m[0], m[2], m[3], m[4], m[6], m[7], m[8], m[10], m[11]);
    M3.DeterminantIsLeibniz(Submatrix(m, 3, 1));
  }

  lemma CofactorAt32(m: Matrix)
    ensures Cofactor(m, 3, 2) == -M3.DetPoly(m[0], m[1], m[3], m[4], m[5], m[7], m[8], m[9], m[11])
  {
    assert Submatrix(m, 3, 2) == M3.New(m[0], m[1], m[3], m[4], m[5], m[7], m[8], m[9], m[11]);
    M3.DeterminantIsLeibniz(Submatrix(m, 3, 2));
  }

  lemma CofactorAt33(m: Matrix)
    ensures Cofactor(m, 3, 3) == M3.DetPoly(m[0], m[1], m[2], m[4], m[5], m[6], m[8], m[9], m[10])
  {
    assert Submatrix(m, 3, 3) == M3.New(m[0], m[1], m[2], m[4], m[5], m[6], m[8], m[9], m[10]);
    M3.DeterminantIsLeibniz(Submatrix(m, 3, 3));
  }

  /** A matrix whose row 1 repeats row 0 has a zero Leibniz formula. */
  lemma CopyRow0To1(m00: real, m01: real, m02: real, m03: real, m10: real, m11: real, m12: real, m13: real, m20: real, m21: real, m22: real, m23: real, m30: real, m31: real, m32: real, m33: real)
    ensures DetPoly(m00, m01, m02, m03, m00, m01, m02, m03, m20, m21, m22, m23, m30, m31, m32, m33) == 0.0
  {
  }

  /** A matrix whose row 2 repeats row 0 has a zero Leibniz formula. */
  lemma CopyRow0To2(m00: real, m01: real, m02: real, m03: real, m10: real, m11: real, m12: real, m13: real, m20: real, m21: real, m22: real, m23: real, m30: real, m31: real, m32: real, m33: real)
    ensures DetPoly(m00, m01, m02, m03, m10, m11, m12, m13, m00, m01, m02, m03, m30, m31, m32, m33) == 0.0
  {
  }

  /** A matrix whose row 3 repeats row 0 has a zero Leibniz formula. */
  lemma CopyRow0To3(m00: real, m01: real, m02: real, m03: real, m10: real, m11: real, m12: real, m13: real, m20: real, m21: real, m22: real, m23: real, m30: real, m31: real, m32: real, m33: real)
    ensures DetPoly(m00, m01, m02, m03, m10, m11, m12, m13, m20, m21, m22, m23, m00, m01, m02, m03) == 0.0
  {
  }

  /** A matrix whose row 0 repeats row 1 has a zero Leibniz formula. */
  lemma CopyRow1To0(m00: real, m01: real, m02: real, m03: real, m10: real, m11: real, m12: real, m13: real, m20: real, m21: real, m22: real, m23: real, m30: real, m31: real, m32: real, m33: real)
    ensures DetPoly(m10, m11, m12, m13, m10, m11, m12, m13, m20, m21, m22, m23, m30, m31, m32, m33) == 0.0
  {
  }

  /** A matrix whose row 2 repeats row 1 has a zero Leibniz formula. */
  lemma CopyRow1To2(m00: real, m01: real, m02: real, m03: real, m10: real, m11: real, m12: real, m13: real, m20: real, m21: real, m22: real, m23: real, m30: real, m31: real, m32: real, m33: real)
    ensures DetPoly(m00, m01, m02, m03, m10, m11, m12, m13, m10, m11, m12, m13, m30, m31, m32, m33) == 0.0
  {
  }

  /** A matrix whose row 3 repeats row 1 has a zero Leibniz formula. */
  lemma CopyRow1To3(m00: real, m01: real, m02: real, m03: real, m10: real, m11: real, m12: real, m13: real, m20: real, m21: real, m22: real, m23: real, m30: real, m31: real, m32: real, m33: real)
    ensures DetPoly(m00, m01, m02, m03, m10, m11, m12, m13, m20, m21, m22, m23, m10, m11, m12, m13) == 0.0
  {
  }

  /** A matrix whose row 0 repeats row 2 has a zero Leibniz formula. */
  lemma CopyRow2To0(m00: real, m01: real, m02: real, m03: real, m10: real, m11: real, m12: real, m13: real, m20: real, m21: real, m22: real, m23: real, m30: real, m31: real, m32: real, m33: real)
    ensures DetPoly(m20, m21, m22, m23, m10, m11, m12, m13, m20, m21, m22, m23, m30, m31, m32, m33) == 0.0
  {
  }

  /** A matrix whose row 1 repeats row 2 has a zero Leibniz formula. */
  lemma CopyRow2To1(m00: real, m01: real, m02: real, m03: real, m10: real, m11: real, m12: real, m13: real, m20: real, m21: real, m22: real, m23: real, m30: real, m31: real, m32: real, m33: real)
    ensures DetPoly(m00, m01, m02, m03, m20, m21, m22, m23, m20, m21, m22, m23, m30, m31, m32, m33) == 0.0
  {
  }

  /** A matrix whose row 3 repeats row 2 has a zero Leibniz formula. */
  lemma CopyRow2To3(m00: real, m01: real, m02: real, m03: real, m10: real, m11: real, m12: real, m13: real, m20: real, m21: real, m22: real, m23: real, m30: real, m31: real, m32: real, m33: real)
    ensures DetPoly(m00, m01, m02, m03, m10, m11, m12, m13, m20, m21, m22, m23, m20, m21, m22, m23) == 0.0
  {
  }

  /** A matrix whose row 0 repeats row 3 has a zero Leibniz formula. */
  lemma CopyRow3To0(m00: real, m01: real, m02: real, m03: real, m10: real, m11: real, m12: real, m13: real, m20: real, m21: real, m22: real, m23: real, m30: real, m31: real, m32: real, m33: real)
    ensures DetPoly(m30, m31, m32, m33, m10, m11, m12, m13, m20, m21, m22, m23, m30, m31, m32, m33) == 0.0
  {
  }

  /** A matrix whose row 1 repeats row 3 has a zero Leibniz formula. */
  lemma CopyRow3To1(m00: real, m01: real, m02: real, m03: real, m10: real, m11: real, m12: real, m13: real, m20: real, m21: real, m22: real, m23: real, m30: real, m31: real, m32: real, m33: real)
    ensures DetPoly(m00, m01, m02, m03, m30, m31, m32, m33, m20, m21, m22, m23, m30, m31, m32, m33) == 0.0
  {
  }

  /** A matrix whose row 2 repeats row 3 has a zero Leibniz formula. */
  lemma CopyRow3To2(m00: real, m01: real, m02: real, m03: real, m10: real, m11: real, m12: real, m13: real, m20: real, m21: real, m22: real, m23: real, m30: real, m31: real, m32: real, m33: real)
    ensures DetPoly(m00, m01, m02, m03, m10, m11, m12, m13, m30, m31, m32, m33, m30, m31, m32, m33) == 0.0
  {
  }

  /** Row-0 cofactor expansion agrees with the Leibniz formula. */
  lemma {:induction false} DeterminantIsLeibniz(m: Matrix)
    ensures Determinant(m) == Leibniz(m)
  {
    LaplaceRow0(m, 0);
  }

  /** Laplace's expansion: the entries of any row against the cofactors of
      the same row give the determinant, and against the cofactors of
      another row give zero. */
  lemma {:induction false} Laplace(m: Matrix, i: nat, j: nat)
    requires i < 4 && j < 4
    ensures RowExpansion(m, i, j) == if i == j then Determinant(m) else 0.0
  {
    DeterminantIsLeibniz(m);
    if j == 0 {
      LaplaceRow0(m, i);
    } else if j == 1 {
      LaplaceRow1(m, i);
    } else if j == 2 {
      LaplaceRow2(m, i);
    } else {
      LaplaceRow3(m, i);
    }
  }

  /** The Leibniz formula is symmetric under transposition. */
  lemma TransposePoly(m00: real, m01: real, m02: real, m03: real, m10: real, m11: real, m12: real, m13: real,
                      m20: real, m21: real, m22: real, m23: real, m30: real, m31: real, m32: real, m33: real)
    ensures DetPoly(m00, m10, m20, m30, m01, m11, m21, m31, m02, m12, m22, m32, m03, m13, m23, m33)
         == DetPoly(m00, m01, m02, m03, m10, m11, m12, m13, m20, m21, m22, m23, m30, m31, m32, m33)
  {
  }

  /** A matrix and its transpose have the same determinant. */
  lemma {:induction false} DeterminantTranspose(m: Matrix)
    ensures Determinant(Transpose(m)) == Determinant(m)
  {
    DeterminantIsLeibniz(m);
    DeterminantIsLeibniz(Transpose(m));
    TransposePoly(m[0], m[1], m[2], m[3], m[4], m[5], m[6], m[7],
                  m[8], m[9], m[10], m[11], m[12], m[13], m[14], m[15]);
  }

  /** The cofactors of the transpose are the transposed cofactors. */
  lemma {:induction false} CofactorTranspose(m: Matrix, row: nat, col: nat)
    requires row < 4 && col < 4
    ensures Cofactor(Transpose(m), row, col) == Cofactor(m, col, row)
  {
    var s1, s2 := Submatrix(Transpose(m), row, col), Submatrix(m, col, row);
    M3.Extensionality(s1, M3.Transpose(s2));
    M3.DeterminantTranspose(s2);
  }

  /** The expansion of row `i` of `t` against its row-`j` cofactors, for a
      `t` that agrees with the transpose of `m` on the entries and the
      cofactors involved. */
  lemma TransposedExpansion(m: Matrix, t: Matrix, i: nat, j: nat)
    requires i < 4 && j < 4
    requires forall k: nat :: k < 4 ==> Get(t, i, k) == Get(m, k, i)
    requires forall k: nat :: k < 4 ==> Cofactor(t, j, k) == Cofactor(m, k, j)
    ensures RowExpansion(t, i, j) == ColumnExpansion(m, i, j)
  {
    assert Get(t, i, 0) == Get(m, 0, i) && Get(t, i, 1) == Get(m, 1, i);
    assert Get(t, i, 2) == Get(m, 2, i) && Get(t, i, 3) == Get(m, 3, i);
    assert Cofactor(t, j, 0) == Cofactor(m, 0, j) && Cofactor(t, j, 1) == Cofactor(m, 1, j);
    assert Cofactor(t, j, 2) == Cofactor(m, 2, j) && Cofactor(t, j, 3) == Cofactor(m, 3, j);
  }

  /** Laplace's expansion down the columns: the entries of column `i`
      against the cofactors of column `j`. */
  lemma {:induction false} ColumnLaplace(m: Matrix, i: nat, j: nat)
    requires i < 4 && j < 4
    ensures ColumnExpansion(m, i, j) == if i == j then Determinant(m) else 0.0
  {
    var t := Transpose(m);
    forall k: nat | k < 4
      ensures Cofactor(t, j, k) == Cofactor(m, k, j)
    {
      CofactorTranspose(m, j, k);
    }
    TransposedExpansion(m, t, i, j);
    Laplace(t, i, j);
    DeterminantTranspose(m);
  }

  /** `Matrix4x4::is_invertable`. */
  predicate IsInvertible(m: Matrix)
  {
    Determinant(m) != 0.0
  }

  /** The matrix of all sixteen cofactors. */
  function CofactorMatrix(m: Matrix): (c: Matrix)
    ensures forall row: nat, col: nat :: row < 4 && col < 4 ==> Get(c, row, col) == Cofactor(m, row, col)
  {
    New(Cofactor(m, 0, 0), Cofactor(m, 0, 1), Cofactor(m, 0, 2), Cofactor(m, 0, 3),
        Cofactor(m, 1, 0), Cofactor(m, 1, 1), Cofactor(m, 1, 2), Cofactor(m, 1, 3),
        Cofactor(m, 2, 0), Cofactor(m, 2, 1), Cofactor(m, 2, 2), Cofactor(m, 2, 3),
        Cofactor(m, 3, 0), Cofactor(m, 3, 1), Cofactor(m, 3, 2), Cofactor(m, 3, 3))
  }

  /** Every entry divided by `d`. */
  function DivideAll(m: Matrix, d: real): (r: Matrix)
    requires d != 0.0
    ensures forall row: nat, col: nat :: row < 4 && col < 4 ==> Get(r, row, col) == Get(m, row, col) / d
  {
    New(m[0] / d, m[1] / d, m[2] / d, m[3] / d, m[4] / d, m[5] / d, m[6] / d, m[7] / d,
        m[8] / d, m[9] / d, m[10] / d, m[11] / d, m[12] / d, m[13] / d, m[14] / d, m[15] / d)
  }

  /** The body of `Matrix4x4::inverse`: entry (row, col) of the result is
      the cofactor at (col, row) divided by the determinant. */
  function InverseOf(m: Matrix): (r: Matrix)
    requires IsInvertible(m)
    ensures forall row: nat, col: nat :: row < 4 && col < 4 ==>
              Get(r, row, col) == Cofactor(m, col, row) / Determinant(m)
    ensures forall row: nat, col: nat :: row < 4 && col < 4 ==>
              Get(r, row, col) == Get(CofactorMatrix(m), col, row) / Determinant(m)
  {
    DivideAll(Transpose(CofactorMatrix(m)), Determinant(m))
  }

  /** `Matrix4x4::inverse`: `None` exactly for a singular matrix; otherwise
      a two-sided inverse. */
  function Inverse(m: Matrix): (r: Option<Matrix>)
    ensures r.None? <==> Determinant(m) == 0.0
    ensures r.Some? ==> r.value == InverseOf(m)
    ensures r.Some? ==> Mul(m, r.value) == Identity() && Mul(r.value, m) == Identity()
  {
    if !IsInvertible(m) then None
    else
      MulInverse(m);
      Some(InverseOf(m))
  }

  /** Laplace's expansion read off the cofactor matrix, along rows. */
  lemma {:induction false} RowAgainstCofactors(m: Matrix, i: nat, j: nat)
    requires i < 4 && j < 4
    ensures Dot4(Get(m, i, 0), Get(m, i, 1), Get(m, i, 2), Get(m, i, 3),
                 Get(CofactorMatrix(m), j, 0), Get(CofactorMatrix(m), j, 1),
                 Get(CofactorMatrix(m), j, 2), Get(CofactorMatrix(m), j, 3))
         == if i == j then Determinant(m) else 0.0
  {
    var c := CofactorMatrix(m);
    assert Get(c, j, 0) == Cofactor(m, j, 0) && Get(c, j, 1) == Cofactor(m, j, 1);
    assert Get(c, j, 2) == Cofactor(m, j, 2) && Get(c, j, 3) == Cofactor(m, j, 3);
    Laplace(m, i, j);
  }

  /** Laplace's expansion read off the cofactor matrix, down the columns. */
  lemma {:induction false} ColumnAgainstCofactors(m: Matrix, i: nat, j: nat)
    requires i < 4 && j < 4
    ensures Dot4(Get(m, 0, i), Get(m, 1, i), Get(m, 2, i), Get(m, 3, i),
                 Get(CofactorMatrix(m), 0, j), Get(CofactorMatrix(m), 1, j),
                 Get(CofactorMatrix(m), 2, j), Get(CofactorMatrix(m), 3, j))
         == if i == j then Determinant(m) else 0.0
  {
    var c := CofactorMatrix(m);
    assert Get(c, 0, j) == Cofactor(m, 0, j) && Get(c, 1, j) == Cofactor(m, 1, j);
    assert Get(c, 2, j) == Cofactor(m, 2, j) && Get(c, 3, j) == Cofactor(m, 3, j);
    ColumnLaplace(m, i, j);
  }

  /** Dividing each term of a four-term sum is dividing the sum. */
  lemma DivideSum(a0: real, a1: real, a2: real, a3: real, c0: real, c1: real, c2: real, c3: real, d: real)
    requires d != 0.0
    ensures a0 * (c0 / d) + a1 * (c1 / d) + a2 * (c2 / d) + a3 * (c3 / d)
         == Dot4(a0, a1, a2, a3, c0, c1, c2, c3) / d
    ensures (c0 / d) * a0 + (c1 / d) * a1 + (c2 / d) * a2 + (c3 / d) * a3
         == Dot4(a0, a1, a2, a3, c0, c1, c2, c3) / d
  {
  }

  /** One entry of `m` times `inv`, for an `inv` whose column `col` holds
      row `col` of the cofactor matrix `c` over `d`, where that row against
      row `row` of `m` sums to `d` or to zero. */
  lemma {:induction false} RightInverseEntry(m: Matrix, c: Matrix, d: real, inv: Matrix, row: nat, col: nat)
    requires d != 0.0 && row < 4 && col < 4
    requires forall k: nat :: k < 4 ==> Get(inv, k, col) == Get(c, col, k) / d
    requires Dot4(Get(m, row, 0), Get(m, row, 1), Get(m, row, 2), Get(m, row, 3),
                  Get(c, col, 0), Get(c, col, 1), Get(c, col, 2), Get(c, col, 3))
          == if row == col then d else 0.0
    ensures ProductEntry(m, inv, row, col) == if row == col then 1.0 else 0.0
  {
    assert Get(inv, 0, col) == Get(c, col, 0) / d && Get(inv, 1, col) == Get(c, col, 1) / d;
    assert Get(inv, 2, col) == Get(c, col, 2) / d && Get(inv, 3, col) == Get(c, col, 3) / d;
    DivideSum(Get(m, row, 0), Get(m, row, 1), Get(m, row, 2), Get(m, row, 3),
              Get(c, col, 0), Get(c, col, 1), Get(c, col, 2), Get(c, col, 3), d);
    assert d / d == 1.0 && 0.0 / d == 0.0;
  }

  /** One entry of `inv` times `m`, the mirror image of `RightInverseEntry`. */
  lemma {:induction false} LeftInverseEntry(m: Matrix, c: Matrix, d: real, inv: Matrix, row: nat, col: nat)
    requires d != 0.0 && row < 4 && col < 4
    requires forall k: nat :: k < 4 ==> Get(inv, row, k) == Get(c, k, row) / d
    requires Dot4(Get(m, 0, col), Get(m, 1, col), Get(m, 2, col), Get(m, 3, col),
                  Get(c, 0, row), Get(c, 1, row), Get(c, 2, row), Get(c, 3, row))
          == if col == row then d else 0.0
    ensures ProductEntry(inv, m, row, col) == if row == col then 1.0 else 0.0
  {
    assert Get(inv, row, 0) == Get(c, 0, row) / d && Get(inv, row, 1) == Get(c, 1, row) / d;
    assert Get(inv, row, 2) == Get(c, 2, row) / d && Get(inv, row, 3) == Get(c, 3, row) / d;
    DivideSum(Get(m, 0, col), Get(m, 1, col), Get(m, 2, col), Get(m, 3, col),
              Get(c, 0, row), Get(c, 1, row), Get(c, 2, row), Get(c, 3, row), d);
    assert d / d == 1.0 && 0.0 / d == 0.0;
  }

  /** The adjugate over the determinant is a two-sided inverse. */
  lemma {:induction false} MulInverse(m: Matrix)
    requires IsInvertible(m)
    ensures Mul(m, InverseOf(m)) == Identity()
    ensures Mul(InverseOf(m), m) == Identity()
  {
    var inv, c, d := InverseOf(m), CofactorMatrix(m), Determinant(m);
    forall row: nat, col: nat | row < 4 && col < 4
      ensures Get(Mul(m, inv), row, col) == Get(Identity(), row, col)
      ensures Get(Mul(inv, m), row, col) == Get(Identity(), row, col)
    {
      RowAgainstCofactors(m, row, col);
      ColumnAgainstCofactors(m, col, row);
      RightInverseEntry(m, c, d, inv, row, col);
      LeftInverseEntry(m, c, d, inv, row, col);
    }
    Extensionality(Mul(m, inv), Identity());
    Extensionality(Mul(inv, m), Identity());
  }

  /** Multiplying a product by the inverse of its right factor gives the
      left factor back. */
  lemma {:induction false} ProductTimesInverse(a: Matrix, b: Matrix)
    requires IsInvertible(b)
    ensures Mul(Mul(a, b), InverseOf(b)) == a
  {
    MulAssociative(a, b, InverseOf(b));
    MulInverse(b);
    IdentityUnit(a);
  }

  /** A right inverse of an invertible matrix is its inverse. */
  lemma {:induction false} InverseUnique(m: Matrix, n: Matrix)
    requires IsInvertible(m) && Mul(m, n) == Identity()
    ensures Inverse(m) == Some(n)
  {
    var inv := InverseOf(m);
    MulInverse(m);
    MulAssociative(inv, m, n);
    IdentityUnit(n);
    IdentityUnit(inv);
  }

  /** The matrix of the source's 4x4 determinant test. */
  const DeterminantCase: Matrix :=
    New(-2.0, -8.0, 3.0, 5.0, -3.0, 1.0, 7.0, 3.0, 1.0, 2.0, -9.0, 6.0, -6.0, 7.0, 7.0, -9.0)

  /** The cofactors along row 0 and the determinant of that matrix. */
  lemma DeterminantExample()
    ensures Cofactor(DeterminantCase, 0, 0) == 690.0 && Cofactor(DeterminantCase, 0, 1) == 447.0
    ensures Cofactor(DeterminantCase, 0, 2) == 210.0 && Cofactor(DeterminantCase, 0, 3) == 51.0
    ensures Determinant(DeterminantCase) == -4071.0
  {
    CofactorAt00(DeterminantCase);
    CofactorAt01(DeterminantCase);
    CofactorAt02(DeterminantCase);
    CofactorAt03(DeterminantCase);
  }

  /** The invertible matrix of the source's invertibility test. */
  lemma InvertibleExample()
    ensures Determinant(New(6.0, 4.0, 4.0, 4.0, 5.0, 5.0, 7.0, 6.0, 4.0, -9.0, 3.0, -7.0, 9.0, 1.0, 7.0, -6.0))
         == -2120.0
  {
    DeterminantIsLeibniz(New(6.0, 4.0, 4.0, 4.0, 5.0, 5.0, 7.0, 6.0, 4.0, -9.0, 3.0, -7.0, 9.0, 1.0, 7.0, -6.0));
  }

  /** The singular matrix of the same test has no inverse. */
  lemma SingularExample()
    ensures Inverse(New(-4.0, 2.0, -2.0, -3.0, 9.0, 6.0, 2.0, 6.0, 0.0, -5.0, 1.0, -5.0, 0.0, 0.0, 0.0, 0.0))
         == None
  {
    DeterminantIsLeibniz(New(-4.0, 2.0, -2.0, -3.0, 9.0, 6.0, 2.0, 6.0, 0.0, -5.0, 1.0, -5.0, 0.0, 0.0, 0.0, 0.0));
  }

  /** The matrix of the source's first inverse test. */
  const InverseCase: Matrix :=
    New(-5.0, 2.0, 6.0, -8.0, 1.0, -5.0, 1.0, 8.0, 7.0, 7.0, -6.0, -7.0, 1.0, -3.0, 7.0, 4.0)

  /** Its determinant and two of its cofactors. */
  lemma InverseCaseFacts()
    ensures Determinant(InverseCase) == 532.0
    ensures Cofactor(InverseCase, 2, 3) == -160.0 && Cofactor(InverseCase, 3, 2) == 105.0
  {
    DeterminantIsLeibniz(InverseCase);
    CofactorAt23(InverseCase);
    CofactorAt32(InverseCase);
  }

  /** An entry of the inverse from the transposed cofactor and the
      determinant. */
  lemma InverseEntryValue(m: Matrix, row: nat, col: nat, c: real, d: real)
    requires row < 4 && col < 4 && Determinant(m) == d && d != 0.0 && Cofactor(m, col, row) == c
    ensures IsInvertible(m)
    ensures Get(InverseOf(m), row, col) == c / d
  {
  }

  /** Entries (3, 2) and (2, 3) of its inverse are the transposed cofactors
      over the determinant. */
  lemma InverseExample()
    ensures IsInvertible(InverseCase)
    ensures Get(InverseOf(InverseCase), 3, 2) == -160.0 / 532.0
    ensures Get(InverseOf(InverseCase), 2, 3) == 105.0 / 532.0
  {
    InverseCaseFacts();
    InverseEntryValue(InverseCase, 3, 2, -160.0, 532.0);
    InverseEntryValue(InverseCase, 2, 3, 105.0, 532.0);
  }
}
