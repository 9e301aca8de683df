/** Row-major 3x3 matrices (src/maths/matrix3x3.rs). `submatrix`, `minor`,
    `cofactor` and `determinant` are not part of the file; they are the ones
    the unit tests pin down: removing one row and one column, the determinant
    of that 2x2 submatrix, the minor negated on odd positions, and the
    expansion along row 0. */
module Matrix3x3 {
  import opened Wrappers
  import MM = MatrixMethods
  import M2 = Matrix2x2

  type Matrix = s: seq<real> | |s| == 9 witness [0.0, 0.0, 0.0, 0.0, 0.0, 0.0, 0.0, 0.0, 0.0]

  /** The entry in row `r` and column `c`. */
  function Get(m: Matrix, r: nat, c: nat): real
    requires r < 3 && c < 3
  {
    m[r * 3 + c]
  }

  /** `Matrix3x3::new`: the arguments are stored row by row. */
  function New(m00: real, m01: real, m02: real,
               m10: real, m11: real, m12: real,
               m20: real, m21: real, m22: real): (m: Matrix)
    ensures Get(m, 0, 0) == m00 && Get(m, 0, 1) == m01 && Get(m, 0, 2) == m02
    ensures Get(m, 1, 0) == m10 && Get(m, 1, 1) == m11 && Get(m, 1, 2) == m12
    ensures Get(m, 2, 0) == m20 && Get(m, 2, 1) == m21 && Get(m, 2, 2) == m22
  {
    [m00, m01, m02, m10, m11, m12, m20, m21, m22]
  }

  /** `Matrix3x3::at`: the shared accessor with size 3. Inside the matrix it
      reads the entry; its guard also lets column 3 through, which on any
      row but the last reads the first entry of the next row; everything
      else panics. */
  function At(m: Matrix, row: nat, col: nat): (r: Option<real>)
    ensures row < 3 && col < 3 ==> r == Some(Get(m, row, col))
    ensures row + 1 < 3 && col == 3 ==> r == Some(Get(m, row + 1, 0))
    ensures r.Some? <==> (row < 3 && col < 3) || (row + 1 < 3 && col == 3)
  {
    MM.At(MM.New(m, 3), row, col)
  }

  /** The 2x2 matrix left after removing row `row` and column `col`. */
  function Submatrix(m: Matrix, row: nat, col: nat): (s: M2.Matrix)
    requires row < 3 && col < 3
    ensures forall i: nat, j: nat :: i < 2 && j < 2 ==>
              M2.Get(s, i, j) == Get(m, MM.Skip(row, i), MM.Skip(col, j))
  {
    M2.New(Get(m, MM.Skip(row, 0), MM.Skip(col, 0)), Get(m, MM.Skip(row, 0), MM.Skip(col, 1)),
           Get(m, MM.Skip(row, 1), MM.Skip(col, 0)), Get(m, MM.Skip(row, 1), MM.Skip(col, 1)))
  }

  /** The determinant of the submatrix. */
  function Minor(m: Matrix, row: nat, col: nat): real
    requires row < 3 && col < 3
  {
    M2.Determinant(Submatrix(m, row, col))
  }

  /** The minor, negated when `row + col` is odd. */
  function Cofactor(m: Matrix, row: nat, col: nat): (c: real)
    requires row < 3 && col < 3
    ensures (row + col) % 2 == 0 ==> c == Minor(m, row, col)
    ensures (row + col) % 2 == 1 ==> c == -Minor(m, row, col)
  {
    if (row + col) % 2 == 0 then Minor(m, row, col) else Minor(m, row, col) * -1.0
  }

  /** Cofactor expansion along row 0. */
  function Determinant(m: Matrix): real
  {
    0.0 + Get(m, 0, 0) * Cofactor(m, 0, 0) + Get(m, 0, 1) * Cofactor(m, 0, 1)
        + Get(m, 0, 2) * Cofactor(m, 0, 2)
  }

  /** The six-term Leibniz formula over the nine entries. */
  function DetPoly(a: real, b: real, c: real, d: real, e: real, f: real,
                   g: real, h: real, i: real): real
  {
    a * e * i - a * f * h - b * d * i + b * f * g + c * d * h - c * e * g
  }

  /** The Leibniz formula applied to a matrix. */
  function Leibniz(m: Matrix): real
  {
    DetPoly(m[0], m[1], m[2], m[3], m[4], m[5], m[6], m[7], m[8])
  }

  /** The matrix with rows and columns exchanged. */
  function Transpose(m: Matrix): (t: Matrix)
    ensures forall r: nat, c: nat :: r < 3 && c < 3 ==> Get(t, r, c) == Get(m, c, r)
  {
    New(m[0], m[3], m[6], m[1], m[4], m[7], m[2], m[5], m[8])
  }

  /** Two matrices are equal when all their entries are. */
  lemma Extensionality(a: Matrix, b: Matrix)
    requires forall r: nat, c: nat :: r < 3 && c < 3 ==> Get(a, r, c) == Get(b, r, c)
    ensures a == b
  {
    forall k | 0 <= k < 9
      ensures a[k] == b[k]
    {
      assert Get(a, k / 3, k % 3) == Get(b, k / 3, k % 3);
    }
  }

  /** The submatrices written out entry by entry along row 0. */
  lemma SubmatricesOfRow0(m: Matrix)
    ensures Submatrix(m, 0, 0) == M2.New(m[4], m[5], m[7], m[8])
    ensures Submatrix(m, 0, 1) == M2.New(m[3], m[5], m[6], m[8])
    ensures Submatrix(m, 0, 2) == M2.New(m[3], m[4], m[6], m[7])
  {
  }

  /** Row-0 cofactor expansion agrees with the Leibniz formula. */
  lemma DeterminantIsLeibniz(m: Matrix)
    ensures Determinant(m) == Leibniz(m)
  {
    SubmatricesOfRow0(m);
  }

  /** A matrix and its transpose have the same determinant. */
  lemma DeterminantTranspose(m: Matrix)
    ensures Determinant(Transpose(m)) == Determinant(m)
  {
    DeterminantIsLeibniz(m);
    DeterminantIsLeibniz(Transpose(m));
  }

  /** `PartialEq for Matrix3x3`: the shared comparison over all nine entries. */
  predicate Eq(a: Matrix, b: Matrix)
  {
    MM.Eq(MM.New(a, 3), MM.New(b, 3))
  }

  /** The construction case of the source's unit tests. */
  lemma NewExample()
    ensures At(New(-3.0, 5.0, 0.0, 1.0, -2.0, -7.0, 0.0, 1.0, 1.0), 1, 1) == Some(-2.0)
  {
  }

  /** Removing row 0 and column 2. */
  lemma SubmatrixExample()
    ensures Submatrix(New(1.0, 5.0, 0.0, -3.0, 2.0, 7.0, 0.0, 6.0, -3.0), 0, 2) == M2.New(-3.0, 2.0, 0.0, 6.0)
  {
  }

  /** Minor and cofactor of the tests' matrix at (1, 0). */
  lemma MinorExample()
    ensures Minor(New(3.0, 5.0, 0.0, 2.0, -1.0, -7.0, 6.0, -1.0, 5.0), 1, 0) == 25.0
  {
    assert Submatrix(New(3.0, 5.0, 0.0, 2.0, -1.0, -7.0, 6.0, -1.0, 5.0), 1, 0) == M2.New(5.0, 0.0, -1.0, 5.0);
  }

  lemma CofactorExample()
    ensures Cofactor(New(3.0, 5.0, 0.0, 2.0, -1.0, -7.0, 6.0, -1.0, 5.0), 1, 0) == -25.0
    ensures Cofactor(New(3.0, 5.0, 0.0, 2.0, -1.0, -7.0, 6.0, -1.0, 5.0), 0, 0) == -12.0
  {
    MinorExample();
    assert Submatrix(New(3.0, 5.0, 0.0, 2.0, -1.0, -7.0, 6.0, -1.0, 5.0), 0, 0) == M2.New(-1.0, -7.0, -1.0, 5.0);
  }

  /** The 3x3 determinant case of the source's unit tests. */
  lemma DeterminantExample()
    ensures Determinant(New(1.0, 2.0, 6.0, -5.0, 8.0, -4.0, 2.0, 6.0, 4.0)) == -196.0
  {
    DeterminantIsLeibniz(New(1.0, 2.0, 6.0, -5.0, 8.0, -4.0, 2.0, 6.0, 4.0));
  }
}
