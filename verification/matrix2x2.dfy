/** Row-major 2x2 matrices (src/maths/matrix2x2.rs). The determinant is not
    part of the file; it is the one its unit test pins down. */
module Matrix2x2 {
  import opened Wrappers
  import MM = MatrixMethods

  type Matrix = s: seq<real> | |s| == 4 witness [0.0, 0.0, 0.0, 0.0]

  /** The entry in row `r` and column `c`. */
  function Get(m: Matrix, r: nat, c: nat): real
    requires r < 2 && c < 2
  {
    m[r * 2 + c]
  }

  /** `Matrix2x2::new`: the arguments are stored row by row. */
  function New(m00: real, m01: real, m10: real, m11: real): (m: Matrix)
    ensures Get(m, 0, 0) == m00 && Get(m, 0, 1) == m01
    ensures Get(m, 1, 0) == m10 && Get(m, 1, 1) == m11
  {
    [m00, m01, m10, m11]
  }

  /** `Matrix2x2::at`: the shared accessor with size 2. Inside the matrix it
      reads the entry; its guard also lets column 2 through, which on any
      row but the last reads the first entry of the next row; everything
      else panics. */
  function At(m: Matrix, row: nat, col: nat): (r: Option<real>)
    ensures row < 2 && col < 2 ==> r == Some(Get(m, row, col))
    ensures row + 1 < 2 && col == 2 ==> r == Some(Get(m, row + 1, 0))
    ensures r.Some? <==> (row < 2 && col < 2) || (row + 1 < 2 && col == 2)
  {
    MM.At(MM.New(m, 2), row, col)
  }

  /** The 2x2 determinant `m00 * m11 - m01 * m10`. */
  function Determinant(m: Matrix): real
  {
    Get(m, 0, 0) * Get(m, 1, 1) - Get(m, 0, 1) * Get(m, 1, 0)
  }

  /** Swapping the rows negates the determinant, and so does swapping the
      columns; the transposed matrix has the same determinant. */
  lemma DeterminantAlternates(a: real, b: real, c: real, d: real)
    ensures Determinant(New(c, d, a, b)) == -Determinant(New(a, b, c, d))
    ensures Determinant(New(b, a, d, c)) == -Determinant(New(a, b, c, d))
    ensures Determinant(New(a, c, b, d)) == Determinant(New(a, b, c, d))
  {
  }

  /** The cases of the source's unit tests. */
  lemma Examples()
    ensures At(New(-3.0, 5.0, 1.0, -2.0), 0, 1) == Some(5.0)
    ensures At(New(-3.0, 5.0, 1.0, -2.0), 1, 0) == Some(1.0)
  {
  }

  lemma DeterminantExample()
    ensures Determinant(New(1.0, 5.0, -3.0, 2.0)) == 17.0
  {
  }
}
